/** What every step keeps: when a script is issued again, and in which order the reaper
    and Close do their work; with ownership and shells, the invariant of every reachable
    state. */
module ProtocolOps {
  import opened Common
  import opened PoolSteps
  import opened Protocol
  import opened ProtocolShells

  // ---------- When a script is reissued ----------

  /** The two outcomes of an Execute after which the script may be issued again: an error
      or a refusal that is transient, if there are attempts left for it, or a suspect
      failure confirmed as a dead shell. */
  predicate Reissuable(cfg: Config, a: Answer) {
    FoundDead(cfg.cl, a) || (cfg.maxAttempts >= 2 && Retryable(Mapped(cfg.cl, a)))
  }

  predicate AllReissuable(cfg: Config, answers: seq<Answer>) {
    forall i :: 0 <= i < |answers| ==> Reissuable(cfg, answers[i])
  }

  function ButLast(answers: seq<Answer>): seq<Answer> {
    if answers == [] then [] else answers[..|answers| - 1]
  }

  /** The outcome `o` of an attempt, given everything executed so far. */
  predicate OutcomeOk(cfg: Config, attempt: int, o: Outcome, answers: seq<Answer>) {
    && |answers| <= 2 * attempt
    && AllReissuable(cfg, ButLast(answers))
    && (Retryable(o) && attempt < cfg.maxAttempts ==> AllReissuable(cfg, answers))
    && (o.Ran? ==> answers != [] && answers[|answers| - 1] == Replied(o.reply))
  }

  predicate PhaseOk(cfg: Config, attempt: int, p: Phase, answers: seq<Answer>) {
    match p
    case Decoding => AllReissuable(cfg, answers) && |answers| <= 2 * attempt - 2
    case Connecting => AllReissuable(cfg, answers) && |answers| <= 2 * attempt - 2
    case Executing => AllReissuable(cfg, answers) && |answers| <= 2 * attempt - 2
    case Invalidating(f) =>
      && AllReissuable(cfg, ButLast(answers)) && 1 <= |answers| <= 2 * attempt - 1
      && answers[|answers| - 1] == Failed(f) && Suspect(cfg.cl, f)
    case Reconnecting => AllReissuable(cfg, answers) && |answers| <= 2 * attempt - 1
    case Reexecuting => AllReissuable(cfg, answers) && |answers| <= 2 * attempt - 1
    case Returning(o) => OutcomeOk(cfg, attempt, o, answers)
  }

  predicate OpOk(cfg: Config, op: Op) {
    match op.pc
    case Starting(a) => 1 <= a <= cfg.maxAttempts && AllReissuable(cfg, op.answers) && |op.answers| <= 2 * a - 2
    case Holding(a, _, p) => 1 <= a <= cfg.maxAttempts && PhaseOk(cfg, a, p, op.answers)
    case Judging(a, o) => 1 <= a <= cfg.maxAttempts && OutcomeOk(cfg, a, o, op.answers)
    case BackingOff(a) => 1 <= a < cfg.maxAttempts && AllReissuable(cfg, op.answers) && |op.answers| <= 2 * a
    case Finished(v) =>
      && AllReissuable(cfg, ButLast(op.answers))
      && (|op.answers| <= if cfg.maxAttempts < 1 then 0 else 2 * cfg.maxAttempts)
      && (v == None && cfg.maxAttempts >= 1 ==> op.answers != [] && op.answers[|op.answers| - 1] == Replied(Done))
  }

  predicate OpsOk(cfg: Config, s: State) {
    forall i :: 0 <= i < |s.ops| ==> OpOk(cfg, s.ops[i])
  }

  lemma RunStepKeepsOp(cfg: Config, attempt: int, r: RunState, ev: RunEvent)
    requires Expects(r.phase, ev) && 1 <= attempt <= cfg.maxAttempts && PhaseOk(cfg, attempt, r.phase, r.answers)
    ensures PhaseOk(cfg, attempt, RunStep(cfg.cl, r, ev).phase, RunStep(cfg.cl, r, ev).answers)
  {
    hide Connected, Invalidated, AllReissuable, ButLast, Suspect, Mapped, Retryable, Reissuable;
    Shorter(cfg, r.answers);
    if r.phase.Executing? {
      AnswerKeepsOp(cfg, attempt, r, ev.answer);
    } else if r.phase.Invalidating? {
      DeadIsReissuable(cfg, attempt, r.answers);
    } else if r.phase.Reexecuting? {
      Longer(cfg, r.answers, ev.answer);
      MappedIs(cfg, attempt, r.answers, ev.answer);
    } else {
      FailsToDial(cfg, attempt, r.answers);
    }
  }

  lemma FailsToDial(cfg: Config, attempt: int, answers: seq<Answer>)
    requires AllReissuable(cfg, answers) && |answers| <= 2 * attempt
    ensures OutcomeOk(cfg, attempt, TransportError(), answers)
  {
    Shorter(cfg, answers);
  }

  lemma Longer(cfg: Config, answers: seq<Answer>, a: Answer)
    ensures ButLast(answers + [a]) == answers
    ensures AllReissuable(cfg, answers) && Reissuable(cfg, a) ==> AllReissuable(cfg, answers + [a])
  {
    hide Reissuable;
    assert (answers + [a])[..|answers|] == answers;
  }

  /** The mapped outcome of the last answer. */
  lemma MappedIs(cfg: Config, attempt: int, answers: seq<Answer>, a: Answer)
    requires AllReissuable(cfg, answers) && |answers| <= 2 * attempt - 1 && 1 <= attempt <= cfg.maxAttempts
    ensures OutcomeOk(cfg, attempt, Mapped(cfg.cl, a), answers + [a])
  {
    hide AllReissuable, ButLast, Suspect;
    Longer(cfg, answers, a);
  }

  lemma AnswerKeepsOp(cfg: Config, attempt: int, r: RunState, a: Answer)
    requires r.phase.Executing? && 1 <= attempt <= cfg.maxAttempts && PhaseOk(cfg, attempt, r.phase, r.answers)
    ensures PhaseOk(cfg, attempt, RunStep(cfg.cl, r, Answers(a)).phase, RunStep(cfg.cl, r, Answers(a)).answers)
  {
    hide AllReissuable, ButLast, Suspect, Mapped, Retryable, Reissuable, OutcomeOk;
    Longer(cfg, r.answers, a);
    MappedIs(cfg, attempt, r.answers, a);
  }

  /** A confirmed dead shell may be retried; any other suspect failure is not transient. */
  lemma DeadIsReissuable(cfg: Config, attempt: int, answers: seq<Answer>)
    requires AllReissuable(cfg, ButLast(answers)) && answers != []
    requires answers[|answers| - 1].Failed? && Suspect(cfg.cl, answers[|answers| - 1].fault)
    ensures cfg.cl.deadShell(answers[|answers| - 1].fault) ==> AllReissuable(cfg, answers)
    ensures !Retryable(Mapped(cfg.cl, answers[|answers| - 1])) && Mapped(cfg.cl, answers[|answers| - 1]).Errored?
  {
    hide AllReissuable;
    assert answers == ButLast(answers) + [answers[|answers| - 1]];
    Longer(cfg, ButLast(answers), answers[|answers| - 1]);
  }

  /** The operation an event is about, if any, keeps its own promise; nobody else's changes. */
  lemma StepKeepsOps(cfg: Config, s: State, ev: Event)
    requires OpsOk(cfg, s) && Enabled(cfg, s, ev)
    ensures OpsOk(cfg, Next(cfg, s, ev))
  {
    hide RunStep, PhaseOk, AllReissuable, Reaped, Expects;
    match ev
    case Acts(i, rev) =>
      assert OpOk(cfg, s.ops[i]);
      RunStepKeepsOp(cfg, s.ops[i].pc.attempt, RunOf(s, i), rev);
    case Checkout(i) => assert OpOk(cfg, s.ops[i]); Phases(cfg, s.ops[i].pc.attempt, Decoding, s.ops[i].answers);
    case GivesBack(i, _) =>
      assert OpOk(cfg, s.ops[i]);
      Phases(cfg, s.ops[i].pc.attempt, s.ops[i].pc.phase, s.ops[i].answers);
    case GiveUp(i) => assert OpOk(cfg, s.ops[i]); Shorter(cfg, s.ops[i].answers);
    case Judges(i, _) => assert OpOk(cfg, s.ops[i]);
    case Wakes(i, _) => assert OpOk(cfg, s.ops[i]); Shorter(cfg, s.ops[i].answers);
    case _ =>
  }

  lemma Shorter(cfg: Config, answers: seq<Answer>)
    ensures AllReissuable(cfg, answers) ==> AllReissuable(cfg, ButLast(answers))
  {
  }

  lemma Phases(cfg: Config, attempt: int, p: Phase, answers: seq<Answer>)
    ensures AllReissuable(cfg, answers) && |answers| <= 2 * attempt - 2 ==> PhaseOk(cfg, attempt, Decoding, answers)
    ensures p.Returning? && PhaseOk(cfg, attempt, p, answers) ==> OutcomeOk(cfg, attempt, p.outcome, answers)
  {
  }

  // ---------- Close and the reaper ----------

  /** Draining begins only once the reaper has exited; nothing is drained before. */
  predicate Ordered(cfg: Config, s: State) {
    && (s.reaper.Exited? ==> !s.closer.Open?)
    && (s.closer.Draining? || s.closer.Closed? ==> s.reaper.Exited?)
    && (s.drained != [] ==> s.closer.Draining? || s.closer.Closed?)
    && (s.closer.Closed? ==> |s.drained| == cfg.n)
  }

  // ---------- Every reachable state ----------

  ghost predicate Inv(cfg: Config, s: State) {
    Conserved(cfg, s) && ShellsOk(cfg, s) && OpsUp(s) && OpsOk(cfg, s) && Ordered(cfg, s)
  }

  lemma InitInv(cfg: Config)
    ensures Inv(cfg, Init(cfg))
  {
    hide Held, All;
    var s := Init(cfg);
    InitConserved(cfg.n);
    NoneHeld(s.ops);
    assert s.idle == seq(cfg.n, i => i);
    assert Places(s) == multiset(s.idle);
  }

  lemma StepInv(cfg: Config, s: State, ev: Event)
    requires Inv(cfg, s) && Enabled(cfg, s, ev)
    ensures Inv(cfg, Next(cfg, s, ev))
  {
    hide Next, Conserved, ShellsOk, OpsUp, OpsOk, Ordered, Enabled;
    StepConserves(cfg, s, ev);
    StepKeepsAllShells(cfg, s, ev);
    StepKeepsOps(cfg, s, ev);
    StepOrdered(cfg, s, ev);
  }

  lemma StepOrdered(cfg: Config, s: State, ev: Event)
    requires Ordered(cfg, s) && Enabled(cfg, s, ev)
    ensures Ordered(cfg, Next(cfg, s, ev))
  {
    hide RunStep, Reaped, Expects, Stops;
  }

  lemma {:induction false} AfterInv(cfg: Config, evs: seq<Event>)
    requires After(cfg, evs).Some?
    ensures Inv(cfg, After(cfg, evs).value)
  {
    hide Inv, Next, Enabled, Init;
    if evs == [] {
      InitInv(cfg);
    } else {
      var k := |evs| - 1;
      AfterInv(cfg, evs[..k]);
      StepInv(cfg, After(cfg, evs[..k]).value, evs[k]);
    }
  }

  lemma ReachableInv(cfg: Config, s: State)
    requires Reachable(cfg, s)
    ensures Inv(cfg, s)
  {
    var evs :| After(cfg, evs) == Some(s);
    AfterInv(cfg, evs);
  }
}
