/** When the node is in safe mode, and who can lead it out. */
module SafeMode {
  import opened Wrappers
  import opened Bytes
  import opened Protocol
  import opened Gossip
  import opened Scores
  import opened NodeSpec
  import opened NodeRuns

  /** A heartbeat was processed, and a leader that is not disqualified came of it. */
  predicate Heals<S>(env: Env<S>, n: Node<S>, inp: Input) {
    var leader := Leader(Tick(env, n, inp).scores);
    HeartbeatOf(env, n, inp).Some? && leader.Some? && leader != n.disqualified
  }

  /** Exactly when a tick ends in safe mode: after a catch, or in it or falling into it without a heartbeat that heals. */
  lemma SafeModeIff<S>(env: Env<S>, n: Node<S>, inp: Input)
    ensures Tick(env, n, inp).safeMode
            <==> CatchesDoubleSign(env, n, inp) || ((n.safeMode || FallsSafe(env, n, inp)) && !Heals(env, n, inp))
  {
    hide RunStdOn, RunScriptOn, Update, Leader, Heard, ParseAssertion, Decay, Pruned, Appended;
    match Accepted(env, n, inp)
    case Some(msg) => ProgramsOnlyDrive(env, Remember(Age(env, n, inp.now), msg), msg.payload, inp);
    case None =>
  }

  lemma HeartbeatAccepted<S>(env: Env<S>, n: Node<S>, inp: Input, l: Mac)
    requires inp.msg.Some? && inp.msg.value.sender == l && inp.msg.value.opcode == Heartbeat
    ensures HeartbeatOf(env, n, inp) == if n.disqualified == Some(l) then None else Some(l)
    ensures !CatchesDoubleSign(env, n, inp)
  {
    hide Leader, Decay, Pruned, Appended;
  }

  /** A stored heartbeat makes its sender the leader; one without a place leaves the lead with the others. */
  lemma HeartbeatLeader(table: Table, track: Track, l: Mac)
    requires Tracks(table, track)
    requires forall m | m in track.stored :: track.stored[m] < track.now
    ensures Leader(Update(table, l, FULL_SCORE)) == Some(l) <==> PlaceFor(table, l).Some?
  {
    if PlaceFor(table, l).Some? {
      var later := track.(stored := track.stored[l := track.now]);
      HeartbeatTracks(table, track, l);
      LeaderIsMostRecent(Update(table, l, FULL_SCORE), later);
      assert Fresh(later, l);
    } else {
      BestIsMaximum(table);
    }
  }

  /**
   * A sender's heartbeat makes it lead outside safe mode exactly when it is not disqualified and the table has a place
   * for it.
   */
  lemma HealIff<S>(env: Env<S>, n: Node<S>, inp: Input, track: Track, l: Mac)
    requires NodeOk(n, track)
    requires inp.msg.Some? && inp.msg.value.sender == l && inp.msg.value.opcode == Heartbeat
    ensures var m := Tick(env, n, inp);
            Leader(m.scores) == Some(l) && !m.safeMode
            <==> n.disqualified != Some(l) && PlaceFor(Decay(n.scores), l).Some?
  {
    hide Tick, Decay, Update, PlaceFor, Leader, CatchesDoubleSign, Accepted, Tracks;
    var m := Tick(env, n, inp);
    HeartbeatAccepted(env, n, inp, l);
    TickScores(env, n, inp);
    DecayTracks(n.scores, track);
    HeartbeatLeader(Decay(n.scores), NextTick(track), l);
    if n.disqualified == Some(l) {
      NodeStep(env, n, inp, track);
      OnlyCatchesDisqualify(env, n, inp);
    } else {
      SafeModeIff(env, n, inp);
    }
  }

  /** Only a catch changes who is disqualified. */
  lemma OnlyCatchesDisqualify<S>(env: Env<S>, n: Node<S>, inp: Input)
    ensures Tick(env, n, inp).disqualified ==
            if CatchesDoubleSign(env, n, inp) then Some(inp.msg.value.sender) else n.disqualified
  {
    hide Dispatch, Settle, Leader, Decay, Pruned, Appended;
    match Accepted(env, n, inp)
    case Some(msg) => DispatchFields(env, Remember(Age(env, n, inp.now), msg), msg, inp);
    case None => SettleFields(Age(env, n, inp.now));
  }
}
