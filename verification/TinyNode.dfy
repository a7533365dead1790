/** The soldier node: an object whose `Tick` updates its fields in place, proved to be one step of `NodeSpec.Tick`. */
module TinyNode {
  import opened Wrappers
  import opened Bytes
  import opened Protocol
  import opened VmTypes
  import opened Gossip
  import opened Vm
  import opened Wal
  import opened Scores
  import opened NodeSpec

  class TinyNode<S> {
    const env: Env<S>
    const id: Mac
    const scores: array<Option<Entry>>
    const motor: Motor
    var state: S
    var wal: Option<Bytes>
    var safeMode: bool
    var disqualified: Option<Mac>
    var lastLeaderMsg: Option<(OpCode, Bytes)>
    var leaderActive: bool
    var recentGossip: Cache
    /** Everything broadcast so far. */
    var sent: seq<Message>

    ghost function View(): Node<S>
      reads this, scores, motor
    {
      Node(id, state, scores[..], wal, safeMode, disqualified, lastLeaderMsg, leaderActive, recentGossip,
           motor.history, sent)
    }

    constructor (env: Env<S>, id: Mac, size: nat, motor: Motor, initial: S, wal: Option<Bytes>)
      ensures this.env == env && this.motor == motor && fresh(scores)
      ensures View() == Node(id, initial, seq(size, _ => None), wal, false, None, None, false, [], motor.history, [])
    {
      this.env, this.id, this.motor, state, this.wal := env, id, motor, initial, wal;
      scores := new Option<Entry>[size](_ => None);
      safeMode, disqualified, lastLeaderMsg, leaderActive := false, None, None, false;
      recentGossip, sent := [], [];
    }

    method EnterSafe(reason: string)
      modifies this, motor
      ensures View() == EnterSafeMode(env, old(View()), reason)
    {
      safeMode := true;
      motor.Stop();
      Append(JuryCommand(reason));
    }

    /** Appending to the log; a node without one skips it. */
    method Append(cmd: Command)
      modifies this`wal
      ensures wal == Appended(env.codec, old(wal), cmd)
    {
      if wal.Some? {
        wal := Some(wal.value + Record(env.codec, cmd));
      }
    }

    /** Rebuilds the state from the log's bytes. */
    method Recover()
      modifies this`state
      ensures state == if wal.Some? then Replay(env.apply, old(state), Recovered(env.codec, wal.value)) else old(state)
    {
      if wal.Some? {
        state := RecoverFromWal(env.codec, wal.value, env.apply, state);
      }
    }

    method DecayScores()
      modifies scores
      ensures scores[..] == Decay(old(scores[..]))
    {
      for i := 0 to scores.Length
        invariant forall k | 0 <= k < i :: scores[k] ==
                    var cell := old(scores[k]);
                    if cell.Some? then Some(cell.value.(score := SaturatingSub(cell.value.score, 1))) else None
        invariant forall k | i <= k < scores.Length :: scores[k] == old(scores[k])
      {
        if scores[i].Some? {
          var e := scores[i].value;
          scores[i] := Some(e.(score := SaturatingSub(e.score, 1)));
        }
      }
      for i := 0 to scores.Length
        invariant forall k | 0 <= k < i :: scores[k] == DecayCell(old(scores[k]))
        invariant forall k | i <= k < scores.Length :: scores[k] ==
                    var cell := old(scores[k]);
                    if cell.Some? then Some(cell.value.(score := SaturatingSub(cell.value.score, 1))) else None
      {
        if scores[i].Some? && scores[i].value.score == 0 {
          scores[i] := None;
        }
      }
    }

    method UpdateScore(sender: Mac, score: nat)
      modifies scores
      ensures scores[..] == Update(old(scores[..]), sender, score)
    {
      ghost var table := scores[..];
      for i := 0 to scores.Length
        invariant scores[..] == table
        invariant forall k | 0 <= k < i :: table[k].None? || table[k].value.id != sender
      {
        if scores[i].Some? && scores[i].value.id == sender {
          assert IndexOf(table, sender) == Some(i);
          scores[i] := Some(scores[i].value.(score := score));
          return;
        }
      }
      assert IndexOf(table, sender) == None;
      for i := 0 to scores.Length
        invariant scores[..] == table
        invariant forall k | 0 <= k < i :: table[k].Some?
      {
        if scores[i].None? {
          assert EmptySlot(table) == Some(i);
          scores[i] := Some(Entry(sender, score));
          return;
        }
      }
      assert EmptySlot(table) == None;
    }

    method GetLeader() returns (leader: Option<Mac>)
      ensures leader == Leader(scores[..])
    {
      var best: Option<Entry> := None;
      for i := 0 to scores.Length
        invariant best == Best(scores[..i])
      {
        assert scores[..i + 1][..i] == scores[..i];
        if scores[i].Some? && (best.None? || scores[i].value.score >= best.value.score) {
          best := scores[i];
        }
      }
      assert scores[..scores.Length] == scores[..];
      return if best.Some? then Some(best.value.id) else None;
    }

    method PruneGossip(now: U64)
      modifies this`recentGossip
      ensures recentGossip == Pruned(old(recentGossip), now)
    {
      var kept: Cache := [];
      for i := 0 to |recentGossip|
        invariant recentGossip == old(recentGossip)
        invariant kept + Pruned(recentGossip[i..], now) == Pruned(recentGossip, now)
      {
        PrunedStep(recentGossip, i, kept, now);
        if SaturatingSub(now, recentGossip[i].timestamp) <= 5_000_000 {
          kept := kept + [recentGossip[i]];
        }
      }
      recentGossip := kept;
    }

    method HearGossip(a: Assertion)
      modifies this`recentGossip
      ensures recentGossip == Heard(old(recentGossip), a)
    {
      for i := 0 to |recentGossip|
        invariant recentGossip == old(recentGossip)
        invariant forall k | 0 <= k < i :: recentGossip[k].mac != a.mac
      {
        if recentGossip[i].mac == a.mac {
          assert Find(recentGossip, a.mac) == Some(i);
          recentGossip := recentGossip[i := recentGossip[i].(timestamp := a.timestamp, score := a.score)];
          return;
        }
      }
      if |recentGossip| < CAPACITY {
        recentGossip := recentGossip + [a];
      }
    }

    method RunStdProgram(payload: Bytes, inp: Input)
      modifies this`sent, motor
      ensures View() == RunStdOn(old(View()), payload, inp)
    {
      var vm := new MicroVm(100);
      var error, msgs := vm.RunStd(payload, motor, inp.sense, Some(Context(id, recentGossip, inp.execNow)));
      sent := sent + msgs;
      if error.Some? {
        motor.Stop();
        sent := sent + [Message(Exception, StdErrorReport(error.value))];
      }
    }

    method RunScriptProgram(payload: Bytes, inp: Input)
      modifies this`sent, motor
      ensures View() == RunScriptOn(env, old(View()), payload, inp)
    {
      var vm := new MicroVm(100);
      var error := vm.Run(env.viewer(payload), motor, inp.pins);
      match error {
        case None =>
        case Some(BufferOverflow) => RunStdProgram(payload, inp);
        case Some(e) =>
          motor.Stop();
          sent := sent + [Message(Exception, ScriptErrorReport(e))];
      }
    }

    method Handle(msg: Incoming, inp: Input)
      modifies this, scores, motor
      ensures View() == Dispatch(env, old(View()), msg, inp)
    {
      match msg.opcode {
        case Heartbeat =>
          UpdateScore(msg.sender, 100);
          if safeMode {
            var leader := GetLeader();
            if leader.Some? && disqualified != leader {
              safeMode := false;
            }
          }
        case SpatialGossip =>
          if |msg.payload| >= 16 {
            HearGossip(Assertion(msg.payload[..6], Le64(msg.payload, 6), Le16(msg.payload, 14)));
          }
        case TaskDispatch =>
          if !safeMode {
            motor.SetSpeed(255);
          }
        case StateUpdate =>
          if !safeMode && msg.payload != [] {
            var delta := msg.payload[0];
            Append(DeltaCommand(delta));
            state := env.apply(state, delta);
          }
        case VmScriptDispatch =>
          if !safeMode {
            RunScriptProgram(msg.payload, inp);
          }
        case StdBytecodeDispatch =>
          if !safeMode {
            RunStdProgram(msg.payload, inp);
          }
        case _ =>
      }
    }

    /** The end of a tick: a leader, if there is one, is noted as active. */
    method NoteLeader()
      modifies this`leaderActive
      ensures View() == Settle(old(View()))
    {
      var leader := GetLeader();
      if leader.Some? {
        leaderActive := true;
      }
    }

    /** The rest of a tick that has received a message. */
    method ReceiveMessage(msg: Incoming, inp: Input)
      modifies this, scores, motor
      ensures View() == Receive(env, old(View()), msg, inp)
    {
      hide Leader, Dispatch, Appended, Settle;
      if disqualified == Some(msg.sender) {
        return;
      }
      var leader := GetLeader();
      if leader == Some(msg.sender) && Commands(msg.opcode) {
        if lastLeaderMsg.Some? && lastLeaderMsg.value.0 == msg.opcode && lastLeaderMsg.value.1 != msg.payload {
          disqualified := Some(msg.sender);
          EnterSafe(DOUBLE_SIGN);
          return;
        }
        lastLeaderMsg := Some((msg.opcode, msg.payload));
      }
      Handle(msg, inp);
      NoteLeader();
    }

    method Tick(inp: Input)
      modifies this, scores, motor
      ensures View() == NodeSpec.Tick(env, old(View()), inp)
    {
      hide Decay, Leader, Pruned, Receive, Appended, Settle;
      DecayScores();
      PruneGossip(inp.now);
      var leader := GetLeader();
      if leaderActive && leader.None? {
        leaderActive := false;
        EnterSafe(HEARTBEAT_LOST);
      }
      if inp.msg.Some? {
        ReceiveMessage(inp.msg.value, inp);
      } else {
        NoteLeader();
      }
    }
  }
}
