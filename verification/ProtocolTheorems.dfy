/** The main results about the pool, for every reachable state of every configuration. */
module ProtocolTheorems {
  import opened Common
  import opened PoolSteps
  import opened Protocol
  import opened ProtocolShells
  import opened ProtocolOps

  // ---------- Ownership ----------

  function One(b: bool): nat {
    if b then 1 else 0
  }

  /** Conservation and exclusive ownership: each connection is once in the idle channel,
      or with one operation, or with the reaper, or drained. */
  lemma ExactlyOnePlace(cfg: Config, s: State, c: ConnId)
    requires Reachable(cfg, s) && c < cfg.n
    ensures multiset(s.idle)[c] + Held(s.ops)[c] + One(s.reaper.Grasping? && s.reaper.conn == c)
        + multiset(s.drained)[c] == 1
    ensures forall i, j :: 0 <= i < j < |s.ops| && s.ops[i].pc.Holding? && s.ops[j].pc.Holding? ==>
      s.ops[i].pc.conn != s.ops[j].pc.conn
    ensures forall i :: 0 <= i < |s.ops| && s.ops[i].pc.Holding? ==>
      s.ops[i].pc.conn !in s.idle && s.ops[i].pc.conn !in s.drained
      && !(s.reaper.Grasping? && s.reaper.conn == s.ops[i].pc.conn)
  {
    ReachableInv(cfg, s);
    PlacesCount(cfg, s, c);
    forall i: nat | i < |s.ops| && s.ops[i].pc.Holding?
      ensures s.ops[i].pc.conn !in s.idle && s.ops[i].pc.conn !in s.drained
        && !(s.reaper.Grasping? && s.reaper.conn == s.ops[i].pc.conn)
        && forall j: nat :: j < |s.ops| && j != i && s.ops[j].pc.Holding? ==> s.ops[j].pc.conn != s.ops[i].pc.conn
    {
      HeldAlone(cfg, s, i);
    }
  }

  /** Nobody who holds a connection is ever stuck: a Run can take its next step whatever
      the outside world answers, and giving a connection back never blocks. */
  lemma HoldersCanMove(cfg: Config, s: State)
    requires Reachable(cfg, s)
    ensures forall i, now :: 0 <= i < |s.ops| && s.ops[i].pc.Holding? && s.ops[i].pc.phase.Returning? ==>
      Enabled(cfg, s, GivesBack(i, now))
    ensures forall i, rev :: 0 <= i < |s.ops| && s.ops[i].pc.Holding? && Expects(s.ops[i].pc.phase, rev) ==>
      Enabled(cfg, s, Acts(i, rev))
    ensures s.reaper.Grasping? ==> Enabled(cfg, s, Puts) || forall built :: Enabled(cfg, s, Reaps(built))
  {
    ReachableInv(cfg, s);
    hide Inv, OpsOk, Ordered, ShellsOk, OpsUp;
    forall i: nat | i < |s.ops| && s.ops[i].pc.Holding?
      ensures s.ops[i].pc.conn < cfg.n && RoomToSend(cfg, s)
    {
      HeldAlone(cfg, s, i);
      SendNeverBlocks(cfg, s);
    }
    if s.reaper.Grasping? {
      InHandAlone(cfg, s);
      SendNeverBlocks(cfg, s);
    }
  }

  lemma SizesAdd(cfg: Config, s: State)
    requires Conserved(cfg, s)
    ensures |s.idle| + |Held(s.ops)| + |InHand(s.reaper)| + |s.drained| == cfg.n
  {
    AllCounts(cfg.n);
  }

  /** With no Run holding a connection, the drain can go on or is complete. */
  lemma DrainGoesOn(cfg: Config, s: State)
    requires Conserved(cfg, s) && s.reaper.Exited? && s.closer.Draining?
    requires forall i :: 0 <= i < |s.ops| ==> !s.ops[i].pc.Holding?
    ensures Enabled(cfg, s, Drains) || Enabled(cfg, s, Finishes)
  {
    NoneHeld(s.ops);
    SizesAdd(cfg, s);
    if s.idle != [] {
      IdleAlone(cfg, s);
    }
  }

  /** Close can be called at any time, and waits for nothing but Runs: the reaper always
      gets to its exit, and draining goes on until every connection is drained unless a
      Run still holds one. */
  lemma CloseWaitsOnlyForRuns(cfg: Config, s: State)
    requires Reachable(cfg, s) && !s.closer.Closed?
    requires forall i :: 0 <= i < |s.ops| ==> !s.ops[i].pc.Holding?
    ensures s.closer.Open? ==> Enabled(cfg, s, StopReaper)
    ensures s.closer.Open?
      || Enabled(cfg, s, Exits) || Enabled(cfg, s, ReaperGone) || Enabled(cfg, s, Drains) || Enabled(cfg, s, Finishes)
      || Enabled(cfg, s, Takes) || Enabled(cfg, s, Puts) || forall built :: Enabled(cfg, s, Reaps(built))
  {
    ReachableInv(cfg, s);
    if s.closer.Draining? {
      hide Reachable, Conserved, ShellsOk, OpsOk, OpsUp, Enabled;
      DrainGoesOn(cfg, s);
    } else if s.closer.Stopping? && s.reaper.Grasping? {
      hide Reachable, Conserved, ShellsOk, OpsOk, OpsUp;
      InHandAlone(cfg, s);
      HoldersCanMove(cfg, s);
    }
  }

  lemma NoHolder(ops: seq<Op>, i: nat)
    requires i < |ops| && |Held(ops)| == 0
    ensures !ops[i].pc.Holding?
  {
    HeldIncludes(ops, i);
    assert HeldBy(ops[i]) <= multiset{};
  }

  /** The reaper's sweep is over before anything is drained, and a finished Close has
      drained every connection once. */
  lemma CloseDrainsAll(cfg: Config, s: State)
    requires Reachable(cfg, s)
    ensures s.drained != [] ==> s.reaper.Exited?
    ensures s.closer.Closed? ==> s.idle == [] && forall c: nat :: multiset(s.drained)[c] == One(c < cfg.n)
    ensures s.closer.Closed? ==> forall c: nat :: c < cfg.n ==> c in s.drained
    ensures s.closer.Closed? ==> forall i :: 0 <= i < |s.ops| ==> !s.ops[i].pc.Holding?
  {
    ReachableInv(cfg, s);
    if s.closer.Closed? {
      hide Reachable, ShellsOk, OpsOk, OpsUp, Places, Held;
      SizesAdd(cfg, s);
      assert Held(s.ops) == multiset{};
      forall c: nat
        ensures multiset(s.drained)[c] == One(c < cfg.n) && (c < cfg.n ==> c in s.drained)
      {
        PlacesCount(cfg, s, c);
      }
      forall i: nat | i < |s.ops|
        ensures !s.ops[i].pc.Holding?
      {
        NoHolder(s.ops, i);
      }
    }
  }

  // ---------- Shells ----------

  /** The executor of connection `c`, which is up and not drained. */
  predicate Keeps(s: State, c: int, e: ExecId) {
    0 <= c < |s.conns| && c !in s.drained && s.conns[c].up && s.conns[c].exec == e
  }

  /** No shell leaks: an executor is live iff some connection that is up keeps it, and
      then only one does. */
  lemma LiveIffKept(cfg: Config, s: State, e: ExecId)
    requires Reachable(cfg, s)
    ensures e in s.shells.live <==> exists c :: Keeps(s, c, e)
    ensures forall c, d :: Keeps(s, c, e) && Keeps(s, d, e) ==> c == d
  {
    ReachableInv(cfg, s);
    hide Inv, Conserved, OpsUp, OpsOk, Ordered;
    if e in s.shells.live {
      var c :| 0 <= c < cfg.n && s.conns[c].exec == e;
      assert Keeps(s, c, e);
    }
  }

  lemma KeptWhileLive(cfg: Config, s: State, e: ExecId) returns (c: ConnId)
    requires ShellsOk(cfg, s) && e in s.shells.live
    ensures c < cfg.n && c !in s.drained
  {
    c :| 0 <= c < cfg.n && s.conns[c].exec == e;
  }

  /** After Close returns no executor is live, whatever Runs did meanwhile. */
  lemma NothingLiveAfterClose(cfg: Config, s: State)
    requires Reachable(cfg, s) && s.closer.Closed?
    ensures s.shells.live == {}
  {
    CloseDrainsAll(cfg, s);
    ReachableInv(cfg, s);
    hide Reachable, Conserved, OpsUp, OpsOk, Ordered, ShellsOk;
    forall e | e in s.shells.live
      ensures false
    {
      var c := KeptWhileLive(cfg, s, e);
    }
  }

  /** Execute is only ever called on an executor whose Connect succeeded and that nobody
      has closed since. */
  lemma ExecutesOnlyLive(cfg: Config, s: State, i: nat, a: Answer)
    requires Reachable(cfg, s) && Enabled(cfg, s, Acts(i, Answers(a)))
    ensures s.conns[s.ops[i].pc.conn].exec in s.shells.live
  {
    ReachableInv(cfg, s);
    HeldAlone(cfg, s, i);
  }

  // ---------- At most once ----------

  /** The script may have taken effect.  A transient refusal by the directory is a refusal. */
  predicate MaybeApplied(delivered: Fault -> bool, a: Answer) {
    match a
    case Replied(r) => r != Refused(KindTransient)
    case Failed(f) => delivered(f)
  }

  /** Nothing was executed after something that may have taken effect. */
  predicate AppliedAtMostOnce(delivered: Fault -> bool, answers: seq<Answer>) {
    forall i :: 0 <= i < |answers| - 1 ==> !MaybeApplied(delivered, answers[i])
  }

  /** What the retry policy needs of a transport. */
  ghost predicate Sound(cfg: Config, delivered: Fault -> bool) {
    && (cfg.maxAttempts >= 1 ==> forall f :: FoundDead(cfg.cl, Failed(f)) ==> !delivered(f))
    && (cfg.maxAttempts >= 2 ==> forall f :: Transient(cfg.cl, f) ==> !delivered(f))
  }

  /** For any classifier at all: retries follow only transient or dead-shell outcomes,
      there are at most two executions an attempt, and success is reported only when the
      last execution succeeded.  Allowed no attempt, an operation executes nothing (and,
      as core.go has it, reports no error). */
  lemma RetriesAreBounded(cfg: Config, s: State, i: nat)
    requires Reachable(cfg, s) && Known(s, i)
    ensures |s.ops[i].answers| <= if cfg.maxAttempts < 1 then 0 else 2 * cfg.maxAttempts
    ensures AllReissuable(cfg, ButLast(s.ops[i].answers))
    ensures cfg.maxAttempts >= 1 && s.ops[i].pc == Finished(None) ==>
      s.ops[i].answers != [] && s.ops[i].answers[|s.ops[i].answers| - 1] == Replied(Done)
  {
    ReachableInv(cfg, s);
    assert OpOk(cfg, s.ops[i]);
  }

  /** With a sound classifier no operation is ever applied and then issued again. */
  lemma AtMostOnce(cfg: Config, delivered: Fault -> bool, s: State, i: nat)
    requires Reachable(cfg, s) && Known(s, i) && Sound(cfg, delivered)
    ensures AppliedAtMostOnce(delivered, s.ops[i].answers)
  {
    hide Reachable;
    ReachableInv(cfg, s);
    var answers := s.ops[i].answers;
    assert OpOk(cfg, s.ops[i]);
    if cfg.maxAttempts >= 1 {
      RetriesAreBounded(cfg, s, i);
      forall k | 0 <= k < |answers| - 1
        ensures !MaybeApplied(delivered, answers[k])
      {
        assert ButLast(answers)[k] == answers[k];
        assert Reissuable(cfg, answers[k]);
      }
    }
  }

  // ---------- Exactly when ----------

  /** The first operation, alone, has checked out connection 0 for its first attempt. */
  lemma FirstCheckout(cfg: Config) returns (s: State)
    requires cfg.n >= 1 && cfg.ops >= 1 && cfg.maxAttempts >= 1
    ensures Reachable(cfg, s) && |s.conns| == cfg.n && Known(s, 0)
    ensures s.ops[0] == Op(Holding(1, 0, Decoding), []) && !s.conns[0].up
  {
    var s0 := Init(cfg);
    assert After(cfg, []) == Some(s0);
    s := Next(cfg, s0, Checkout(0));
    ReachableNext(cfg, s0, Checkout(0));
  }

  lemma Act(cfg: Config, s: State, rev: RunEvent) returns (t: State)
    requires Reachable(cfg, s) && |s.conns| == cfg.n && Known(s, 0) && s.ops[0].pc.Holding? && s.ops[0].pc.conn < cfg.n
    requires Expects(s.ops[0].pc.phase, rev)
    ensures Reachable(cfg, t) && |t.conns| == cfg.n && Known(t, 0)
    ensures
      var r := RunStep(cfg.cl, RunOf(s, 0), rev);
      && t.ops[0] == Op(Holding(s.ops[0].pc.attempt, s.ops[0].pc.conn, r.phase), r.answers)
      && t.conns[s.ops[0].pc.conn] == r.link.conn
  {
    hide RunStep, Reachable;
    t := Next(cfg, s, Acts(0, rev));
    ReachableNext(cfg, s, Acts(0, rev));
  }

  /** From a fresh checkout to the answer `a` of the attempt's first Execute. */
  lemma FirstAnswer(cfg: Config, s: State, a: Answer) returns (t: State)
    requires Reachable(cfg, s) && |s.conns| == cfg.n && Known(s, 0)
    requires s.ops[0].pc.Holding? && s.ops[0].pc.conn < cfg.n && s.ops[0].pc.phase.Decoding?
    ensures Reachable(cfg, t) && |t.conns| == cfg.n && Known(t, 0)
    ensures t.ops[0].pc.Holding? && t.ops[0].pc.conn == s.ops[0].pc.conn && t.ops[0].pc.attempt == s.ops[0].pc.attempt
    ensures t.ops[0].answers == s.ops[0].answers + [a]
    ensures t.ops[0].pc.phase ==
      if a.Failed? && Suspect(cfg.cl, a.fault) then Invalidating(a.fault) else Returning(Mapped(cfg.cl, a))
  {
    hide Reachable;
    t := Act(cfg, s, Decodes(true));
    t := Act(cfg, t, Dials(true));
    t := Act(cfg, t, Answers(a));
  }

  /** A failure taken for a dead shell although the script was delivered: the run that
      rebuilds, redials and issues the script a second time. */
  lemma DeadShellWitness(cfg: Config, delivered: Fault -> bool, f: Fault) returns (s: State)
    requires cfg.n >= 1 && cfg.ops >= 1 && cfg.maxAttempts >= 1
    requires FoundDead(cfg.cl, Failed(f)) && delivered(f)
    ensures Reachable(cfg, s) && Known(s, 0) && !AppliedAtMostOnce(delivered, s.ops[0].answers)
  {
    hide Reachable;
    s := FirstCheckout(cfg);
    s := FirstAnswer(cfg, s, Failed(f));
    s := Act(cfg, s, Builds(true));
    s := Act(cfg, s, Dials(true));
    s := Act(cfg, s, Answers(Replied(Done)));
    assert s.ops[0].answers[0] == Failed(f);
    assert MaybeApplied(delivered, s.ops[0].answers[0]);
  }

  /** The operation gives its connection back, is told its attempt was transient, waits
      and checks a connection out again. */
  lemma NextAttempt(cfg: Config, s: State) returns (t: State)
    requires Reachable(cfg, s) && |s.conns| == cfg.n && Known(s, 0)
    requires s.ops[0].pc.Holding? && s.ops[0].pc.phase == Returning(Errored(Some(KindTransient)))
    requires s.ops[0].pc.attempt < cfg.maxAttempts
    ensures Reachable(cfg, t) && |t.conns| == cfg.n && Known(t, 0)
    ensures t.ops[0].pc.Holding? && t.ops[0].pc.conn < cfg.n && t.ops[0].pc.phase.Decoding?
    ensures t.ops[0].answers == s.ops[0].answers
  {
    HoldersCanMove(cfg, s);
    var s1 := Next(cfg, s, GivesBack(0, 0));
    ReachableNext(cfg, s, GivesBack(0, 0));
    hide Reachable;
    var s2 := Next(cfg, s1, Judges(0, true));
    ReachableNext(cfg, s1, Judges(0, true));
    var s3 := Next(cfg, s2, Wakes(0, true));
    ReachableNext(cfg, s2, Wakes(0, true));
    t := Next(cfg, s3, Checkout(0));
    ReachableNext(cfg, s3, Checkout(0));
    ReachableInv(cfg, t);
    HeldAlone(cfg, t, 0);
  }

  /** A failure taken for transient although the script was delivered: the run whose
      second attempt issues the script again. */
  lemma TransientWitness(cfg: Config, delivered: Fault -> bool, f: Fault) returns (s: State)
    requires cfg.n >= 1 && cfg.ops >= 1 && cfg.maxAttempts >= 2
    requires Transient(cfg.cl, f) && delivered(f)
    ensures Reachable(cfg, s) && Known(s, 0) && !AppliedAtMostOnce(delivered, s.ops[0].answers)
  {
    hide Reachable;
    s := FirstCheckout(cfg);
    s := FirstAnswer(cfg, s, Failed(f));
    s := NextAttempt(cfg, s);
    s := FirstAnswer(cfg, s, Replied(Done));
    assert s.ops[0].answers[0] == Failed(f);
    assert MaybeApplied(delivered, s.ops[0].answers[0]);
  }

  /** Every operation of every reachable state is applied at most once. */
  ghost predicate AlwaysAtMostOnce(cfg: Config, delivered: Fault -> bool) {
    forall s, i: nat :: Reachable(cfg, s) && Known(s, i) ==> AppliedAtMostOnce(delivered, s.ops[i].answers)
  }

  /** The classifier conditions are not only enough: the retry policy is safe on all runs
      exactly when they hold. */
  lemma AtMostOnceIff(cfg: Config, delivered: Fault -> bool)
    requires cfg.n >= 1 && cfg.ops >= 1
    ensures AlwaysAtMostOnce(cfg, delivered) <==> Sound(cfg, delivered)
  {
    hide Reachable, AppliedAtMostOnce;
    if Sound(cfg, delivered) {
      forall s, i: nat | Reachable(cfg, s) && Known(s, i)
        ensures AppliedAtMostOnce(delivered, s.ops[i].answers)
      {
        AtMostOnce(cfg, delivered, s, i);
      }
    } else if cfg.maxAttempts >= 1 && exists f :: FoundDead(cfg.cl, Failed(f)) && delivered(f) {
      var f :| FoundDead(cfg.cl, Failed(f)) && delivered(f);
      var s := DeadShellWitness(cfg, delivered, f);
    } else {
      var f :| Transient(cfg.cl, f) && delivered(f);
      var s := TransientWitness(cfg, delivered, f);
    }
  }
}
