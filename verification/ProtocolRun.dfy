/** The pool's Run as it is written is one of the protocol's interleavings: the steps
    of one operation, with nobody in between, take the protocol where the method says. */
module ProtocolRun {
  import opened Common
  import opened PoolSteps
  import opened Protocol
  import opened ProtocolShells
  import opened ProtocolOps
  import PT = ProtocolTheorems

  /** Operation `i`, from the middle of its Run with connection `c`, stepped to its return. */
  lemma {:induction false} ActsToReturn(cfg: Config, w: World, s: State, i: nat) returns (t: State)
    requires Reachable(cfg, s) && Known(s, i) && s.ops[i].pc.Holding? && Exists(s, s.ops[i].pc.conn)
    ensures Reachable(cfg, t)
    ensures
      var c := s.ops[i].pc.conn;
      var d := Driven(cfg.cl, w, RunOf(s, i));
      t == Relinked(Updated(s, i, Op(Holding(s.ops[i].pc.attempt, c, d.phase), d.answers)), c, d.link)
    decreases Rank(s.ops[i].pc.phase)
  {
    hide Reachable, RunStep, Driven;
    var p := s.ops[i].pc.phase;
    if p.Returning? {
      ReturnedStays(cfg.cl, w, RunOf(s, i));
      t := s;
      assert s.ops[i := s.ops[i]] == s.ops;
      assert s.conns[s.ops[i].pc.conn := s.conns[s.ops[i].pc.conn]] == s.conns;
    } else {
      var ev := Acts(i, EventFor(w, p));
      ReachableNext(cfg, s, ev);
      Unfold(cfg.cl, w, RunOf(s, i));
      ActRankDrops(cfg.cl, RunOf(s, i), EventFor(w, p));
      t := ActsToReturn(cfg, w, Next(cfg, s, ev), i);
    }
  }

  /** Checkout, Run and return of one operation, undisturbed: the connection goes from
      the front of the channel to its back, stamped, as the Run leaves it; the operation
      judges the Run's outcome; nothing else changes. */
  lemma RunIsAnInterleaving(cfg: Config, w: World, s: State, i: nat, now: int) returns (t: State)
    requires Reachable(cfg, s) && Known(s, i) && s.ops[i].pc.Starting? && s.idle != []
    ensures Reachable(cfg, t) && s.idle[0] < |s.conns|
    ensures
      var c := s.idle[0];
      var d := Driven(cfg.cl, w, RunState(Decoding, Link(s.conns[c], s.shells), s.ops[i].answers));
      t == s.(
        idle := s.idle[1..] + [c],
        conns := s.conns[c := d.link.conn.(lastUsed := now)],
        shells := d.link.shells,
        ops := s.ops[i := Op(Judging(s.ops[i].pc.attempt, d.phase.outcome), d.answers)])
  {
    hide Reachable, Driven, Conserved, ShellsOk, OpsOk, OpsUp, Ordered;
    ReachableInv(cfg, s);
    IdleAlone(cfg, s);
    ReachableConns(cfg, s);
    var s1 := Next(cfg, s, Checkout(i));
    ReachableNext(cfg, s, Checkout(i));
    var s2 := ActsToReturn(cfg, w, s1, i);
    PT.HoldersCanMove(cfg, s2);
    assert Enabled(cfg, s2, GivesBack(i, now));
    t := Next(cfg, s2, GivesBack(i, now));
    ReachableNext(cfg, s2, GivesBack(i, now));
  }

  /** What operation `i` is doing after an attempt has come to `o` and, if it waits for
      another, the wait has ended. */
  function Verdicted(attempt: int, maxAttempts: int, o: Outcome, readable: bool, wakes: bool): Pc {
    var again := if wakes then Starting(attempt + 1) else Finished(Some(KindTransport));
    match o
    case Ran(Done) => Finished(if readable then None else Some(KindTransport))
    case Ran(Refused(k)) => if k == KindTransient && attempt != maxAttempts then again else Finished(Some(k))
    case Ran(Garbled) => Finished(Some(KindTransport))
    case Errored(Some(k)) => if k == KindTransient && attempt != maxAttempts then again else Finished(Some(k))
    case Errored(None) => Finished(Some(KindTransport))
  }

  /** One whole attempt of core.exec, undisturbed: the Run above, its judgement and the
      wait.  The caller gets the directory's own kind, unless it is transient and there is
      an attempt left. */
  lemma AttemptIsAnInterleaving(cfg: Config, w: World, s: State, i: nat, now: int, readable: bool, wakes: bool)
    returns (t: State)
    requires Reachable(cfg, s) && Known(s, i) && s.ops[i].pc.Starting? && s.idle != []
    ensures Reachable(cfg, t) && s.idle[0] < |s.conns| && Known(t, i)
    ensures
      var c := s.idle[0];
      var d := Driven(cfg.cl, w, RunState(Decoding, Link(s.conns[c], s.shells), s.ops[i].answers));
      && t.ops[i].pc == Verdicted(s.ops[i].pc.attempt, cfg.maxAttempts, d.phase.outcome, readable, wakes)
      && t.ops[i].answers == d.answers
  {
    hide Driven;
    var s1 := RunIsAnInterleaving(cfg, w, s, i, now);
    ReachableNext(cfg, s1, Judges(i, readable));
    t := Next(cfg, s1, Judges(i, readable));
    if t.ops[i].pc.BackingOff? {
      ReachableNext(cfg, t, Wakes(i, wakes));
      t := Next(cfg, t, Wakes(i, wakes));
    }
    hide Reachable;
  }

  /** A caller whose context ends while it waits for a connection is told so by a transient
      error, which the loop takes like any other. */
  lemma GivingUp(cfg: Config, s: State, i: nat, readable: bool, wakes: bool) returns (t: State)
    requires Reachable(cfg, s) && Known(s, i) && s.ops[i].pc.Starting?
    ensures Reachable(cfg, t) && Known(t, i) && t.conns == s.conns && t.idle == s.idle && t.shells == s.shells
    ensures t.ops[i].answers == s.ops[i].answers
    ensures t.ops[i].pc == if s.ops[i].pc.attempt == cfg.maxAttempts then Finished(Some(KindTransient))
                           else if wakes then Starting(s.ops[i].pc.attempt + 1) else Finished(Some(KindTransport))
  {
    var s1 := Next(cfg, s, GiveUp(i));
    ReachableNext(cfg, s, GiveUp(i));
    ReachableNext(cfg, s1, Judges(i, readable));
    t := Next(cfg, s1, Judges(i, readable));
    if t.ops[i].pc.BackingOff? {
      ReachableNext(cfg, t, Wakes(i, wakes));
      t := Next(cfg, t, Wakes(i, wakes));
    }
    hide Reachable;
  }

  lemma ReachableConns(cfg: Config, s: State)
    requires Reachable(cfg, s)
    ensures |s.conns| == cfg.n
  {
    ReachableInv(cfg, s);
  }

  // ---------- Every operation ends ----------

  /** An upper bound on the steps an operation still takes. */
  function StepsLeft(cfg: Config, pc: Pc): int {
    match pc
    case Starting(a) => 12 * (cfg.maxAttempts - a) + 11
    case Holding(a, _, p) => 12 * (cfg.maxAttempts - a) + 3 + Rank(p)
    case Judging(a, _) => 12 * (cfg.maxAttempts - a) + 2
    case BackingOff(a) => 12 * (cfg.maxAttempts - a) + 1
    case Finished(_) => 0
  }

  predicate IsStepOf(ev: Event, i: nat) {
    (ev.Checkout? || ev.GiveUp? || ev.Acts? || ev.GivesBack? || ev.Judges? || ev.Wakes?) && ev.op == i
  }

  /** No operation retries for ever: its own steps run out, whatever they are and whatever
      the others do in between. */
  lemma OperationsEnd(cfg: Config, s: State, ev: Event, i: nat)
    requires Reachable(cfg, s) && Known(s, i) && Enabled(cfg, s, ev)
    ensures Known(Next(cfg, s, ev), i)
    ensures 0 <= StepsLeft(cfg, Next(cfg, s, ev).ops[i].pc) <= StepsLeft(cfg, s.ops[i].pc)
    ensures IsStepOf(ev, i) ==> StepsLeft(cfg, Next(cfg, s, ev).ops[i].pc) < StepsLeft(cfg, s.ops[i].pc)
  {
    hide Reachable, Conserved, ShellsOk, OpsUp, Ordered, RunStep, Reaped;
    ReachableInv(cfg, s);
    assert OpOk(cfg, s.ops[i]);
    StepInv(cfg, s, ev);
    assert OpOk(cfg, Next(cfg, s, ev).ops[i]);
    if ev.Acts? {
      ActRankDrops(cfg.cl, RunOf(s, ev.op), ev.ev);
    }
  }

  lemma ActRankDrops(cl: Classifier, r: RunState, ev: RunEvent)
    requires Expects(r.phase, ev)
    ensures Rank(RunStep(cl, r, ev).phase) < Rank(r.phase)
  {
  }

  // ---------- Close ends ----------

  function SweepLeft(r: Reaper): nat {
    match r
    case Exited => 0
    case Resting => 1
    case Sweeping(left, _) => 3 * left + 2
    case Grasping(_, left, _, done) => 3 * left + if done then 3 else 4
  }

  function DrainLeft(cfg: Config, s: State): int {
    match s.closer
    case Open => cfg.n + 3
    case Stopping => cfg.n + 2
    case Draining => cfg.n + 1 - |s.drained|
    case Closed => 0
  }

  /** An upper bound on the steps that the reaper and Close still take, ticks aside. */
  function ClosingLeft(cfg: Config, s: State): int {
    SweepLeft(s.reaper) + DrainLeft(cfg, s)
  }

  predicate IsClosing(ev: Event) {
    ev.Takes? || ev.Reaps? || ev.Puts? || ev.Exits? || ev.StopReaper? || ev.ReaperGone? || ev.Drains? || ev.Finishes?
  }

  /** Every step of Close, and every step of the reaper but the tick that starts a sweep,
      brings the end nearer; no step of an operation puts it off. */
  lemma ClosingProgress(cfg: Config, s: State, ev: Event)
    requires Reachable(cfg, s) && Enabled(cfg, s, ev)
    ensures 0 <= ClosingLeft(cfg, Next(cfg, s, ev))
    ensures IsClosing(ev) ==> ClosingLeft(cfg, Next(cfg, s, ev)) < ClosingLeft(cfg, s)
    ensures !IsClosing(ev) && !ev.Tick? ==> ClosingLeft(cfg, Next(cfg, s, ev)) == ClosingLeft(cfg, s)
  {
    hide RunStep, Reaped, Expects, Stops, Conserved, ShellsOk, OpsOk, OpsUp;
    ReachableInv(cfg, s);
    DrainedFew(cfg, s);
    ReachableNext(cfg, s, ev);
    ReachableInv(cfg, Next(cfg, s, ev));
    DrainedFew(cfg, Next(cfg, s, ev));
    hide Reachable;
  }

  lemma DrainedFew(cfg: Config, s: State)
    requires Reachable(cfg, s)
    ensures |s.drained| <= cfg.n
  {
    ReachableInv(cfg, s);
    PT.SizesAdd(cfg, s);
  }

  /** The end is Close done and the reaper gone; once Close has been called and no Run holds
      a connection, a step towards it can be taken until it is reached. */
  lemma CloseEnds(cfg: Config, s: State)
    requires Reachable(cfg, s)
    ensures ClosingLeft(cfg, s) == 0 <==> s.closer.Closed?
    ensures !s.closer.Open? && !s.closer.Closed? && (forall i :: 0 <= i < |s.ops| ==> !s.ops[i].pc.Holding?) ==>
      exists ev :: IsClosing(ev) && Enabled(cfg, s, ev)
  {
    hide Reachable, Conserved, ShellsOk, OpsOk, OpsUp, Enabled;
    ReachableInv(cfg, s);
    DrainedFew(cfg, s);
    if !s.closer.Open? && !s.closer.Closed? && forall i :: 0 <= i < |s.ops| ==> !s.ops[i].pc.Holding? {
      PT.CloseWaitsOnlyForRuns(cfg, s);
      if forall built :: Enabled(cfg, s, Reaps(built)) {
        assert Enabled(cfg, s, Reaps(true));
      }
    }
  }
}
