/** The steps of one Run on one pooled connection (internal/warm/conn.go,
    internal/warm/warm.go) and of the retry loop around it (core.go), as functions on
    values.  What the outside world answers is carried by events. */
module PoolSteps {
  import opened Common

  // ---------- Failures and how they are told apart ----------

  datatype Kind =
    | KindUnknown | KindNotFound | KindAlreadyExists | KindDenied | KindConstraint
    | KindPassword | KindReferral | KindTransient | KindTransport

  /** An error returned by Execute; `callerContext` says it stems from the caller's context. */
  datatype Fault = Fault(id: int, callerContext: bool)

  /** The transport's error detection: the kind of the mapped error (None if it is no
      library error), and whether the failure is a confirmed dead shell. */
  datatype Classifier = Classifier(mapError: Fault -> Option<Kind>, deadShell: Fault -> bool)

  /** What a script that ran to its end reported. */
  datatype Reply = Done | Refused(kind: Kind) | Garbled

  datatype Answer = Replied(reply: Reply) | Failed(fault: Fault)

  /** The error promises that the script did not run and the shell still works. */
  predicate Transient(cl: Classifier, f: Fault) {
    cl.mapError(f) == Some(KindTransient)
  }

  /** The failures after which Run rebuilds the connection. */
  predicate Suspect(cl: Classifier, f: Fault) {
    cl.mapError(f).Some? && !Transient(cl, f) && !f.callerContext
  }

  // ---------- One connection and the shells ----------

  type ExecId = nat

  datatype Conn = Conn(exec: ExecId, up: bool, lastUsed: int)

  /** The executors that are connected and not closed, and the next one to be built. */
  datatype Shells = Shells(live: set<ExecId>, next: ExecId)

  /** A connection together with the shells it acts on. */
  datatype Link = Link(conn: Conn, shells: Shells)

  /** conn.ensureConnected; it succeeds iff the result is up. */
  function Connected(l: Link, ok: bool): Link {
    if l.conn.up || !ok then l
    else Link(l.conn.(up := true), l.shells.(live := l.shells.live + {l.conn.exec}))
  }

  /** conn.invalidate: close the executor, build another (keep it if that fails), mark it down. */
  function Invalidated(l: Link, built: bool): Link {
    Link(l.conn.(exec := if built then l.shells.next else l.conn.exec, up := false),
         Shells(l.shells.live - {l.conn.exec}, if built then l.shells.next + 1 else l.shells.next))
  }

  /** The connection is up and unused for at least `reapAfter`. */
  predicate Stale(c: Conn, now: int, reapAfter: int) {
    c.up && now - c.lastUsed >= reapAfter
  }

  /** Pool.reapConnIfIdle. */
  function Reaped(l: Link, now: int, reapAfter: int, built: bool): Link {
    if Stale(l.conn, now, reapAfter) then Invalidated(l, built) else l
  }

  /** Every executor has been built, and the connection's is live iff the connection is up. */
  predicate Synced(l: Link) {
    && l.conn.exec < l.shells.next
    && (forall e :: e in l.shells.live ==> e < l.shells.next)
    && (l.conn.up <==> l.conn.exec in l.shells.live)
  }

  /** From `l` to `m` no executor but the connection's own was touched. */
  ghost predicate OwnOnly(l: Link, m: Link) {
    && l.shells.next <= m.shells.next
    && (m.conn.exec == l.conn.exec || l.shells.next <= m.conn.exec)
    && (m.conn.exec != l.conn.exec ==> l.conn.exec !in m.shells.live)
    && (forall e :: e in m.shells.live ==> e in l.shells.live || e == m.conn.exec)
    && (forall e :: e in l.shells.live && e != l.conn.exec ==> e in m.shells.live)
  }

  // ---------- One Run ----------

  /** What Run returns: the script's reply, or an error of a kind (None if it has none). */
  datatype Outcome = Ran(reply: Reply) | Errored(kind: Option<Kind>)

  datatype Phase =
    | Decoding | Connecting | Executing | Invalidating(fault: Fault)
    | Reconnecting | Reexecuting | Returning(outcome: Outcome)

  /** `answers` collects what every Execute of the operation came to. */
  datatype RunState = RunState(phase: Phase, link: Link, answers: seq<Answer>)

  datatype RunEvent = Decodes(ok: bool) | Dials(ok: bool) | Answers(answer: Answer) | Builds(ok: bool)

  predicate Expects(p: Phase, ev: RunEvent) {
    match p
    case Decoding => ev.Decodes?
    case Connecting => ev.Dials?
    case Executing => ev.Answers?
    case Invalidating(_) => ev.Builds?
    case Reconnecting => ev.Dials?
    case Reexecuting => ev.Answers?
    case Returning(_) => false
  }

  /** What an answer means to Run's caller once the error is mapped. */
  function Mapped(cl: Classifier, a: Answer): Outcome {
    match a
    case Replied(reply) => Ran(reply)
    case Failed(f) => Errored(cl.mapError(f))
  }

  function TransportError(): Outcome {
    Errored(Some(KindTransport))
  }

  /** One atomic step of Pool.Run, from its checkout to its return. */
  function RunStep(cl: Classifier, s: RunState, ev: RunEvent): RunState
    requires Expects(s.phase, ev)
  {
    match s.phase
    case Decoding =>
      s.(phase := if ev.ok then Connecting else Returning(TransportError()))
    case Connecting =>
      var link := Connected(s.link, ev.ok);
      s.(link := link, phase := if link.conn.up then Executing else Returning(TransportError()))
    case Executing =>
      var answers := s.answers + [ev.answer];
      if ev.answer.Failed? && Suspect(cl, ev.answer.fault) then
        s.(answers := answers, phase := Invalidating(ev.answer.fault))
      else
        s.(answers := answers, phase := Returning(Mapped(cl, ev.answer)))
    case Invalidating(f) =>
      s.(link := Invalidated(s.link, ev.ok),
      phase := if cl.deadShell(f) then Reconnecting else Returning(Mapped(cl, Failed(f))))
    case Reconnecting =>
      var link := Connected(s.link, ev.ok);
      s.(link := link, phase := if link.conn.up then Reexecuting else Returning(TransportError()))
    case Reexecuting =>
      s.(answers := s.answers + [ev.answer], phase := Returning(Mapped(cl, ev.answer)))
  }

  /** The phases in which an Execute is under way or has just failed. */
  predicate NeedsShell(p: Phase) {
    p.Executing? || p.Invalidating? || p.Reexecuting?
  }

  /** Every step keeps the connection in step with its shell, touches no other
      executor, and only ever executes on a connection that is up. */
  lemma StepKeepsShells(cl: Classifier, s: RunState, ev: RunEvent)
    requires Expects(s.phase, ev) && Synced(s.link)
    requires NeedsShell(s.phase) ==> s.link.conn.up
    ensures
      var t := RunStep(cl, s, ev);
      && Synced(t.link) && OwnOnly(s.link, t.link)
      && (NeedsShell(t.phase) ==> t.link.conn.up)
  {
  }

  /** So does the reaper's. */
  lemma ReapKeepsShells(l: Link, now: int, reapAfter: int, built: bool)
    requires Synced(l)
    ensures
      var m := Reaped(l, now, reapAfter, built);
      && Synced(m) && OwnOnly(l, m)
      && (Stale(l.conn, now, reapAfter) ==> !m.conn.up && m.shells.live == l.shells.live - {l.conn.exec})
      && (!Stale(l.conn, now, reapAfter) ==> m == l)
  {
  }

  // ---------- The whole Run ----------

  /** Everything the outside world decides during one Run. */
  datatype World = World(decodes: bool, dials: bool, answer: Answer, builds: bool, redials: bool, reanswer: Answer)

  function EventFor(w: World, p: Phase): (ev: RunEvent)
    requires !p.Returning?
    ensures Expects(p, ev)
  {
    match p
    case Decoding => Decodes(w.decodes)
    case Connecting => Dials(w.dials)
    case Executing => Answers(w.answer)
    case Invalidating(_) => Builds(w.builds)
    case Reconnecting => Dials(w.redials)
    case Reexecuting => Answers(w.reanswer)
  }

  function Rank(p: Phase): nat {
    match p
    case Decoding => 6
    case Connecting => 5
    case Executing => 4
    case Invalidating(_) => 3
    case Reconnecting => 2
    case Reexecuting => 1
    case Returning(_) => 0
  }

  /** Step until Run returns. */
  function Driven(cl: Classifier, w: World, s: RunState): (t: RunState)
    ensures t.phase.Returning?
    decreases Rank(s.phase)
  {
    if s.phase.Returning? then s
    else Driven(cl, w, RunStep(cl, s, EventFor(w, s.phase)))
  }

  /** Whatever happens during a Run, the connection stays in step with its shell and no
      other executor is touched. */
  lemma {:induction false} RunKeeps(cl: Classifier, w: World, s: RunState)
    requires Synced(s.link) && (NeedsShell(s.phase) ==> s.link.conn.up)
    ensures Synced(Driven(cl, w, s).link) && OwnOnly(s.link, Driven(cl, w, s).link)
    decreases Rank(s.phase)
  {
    if !s.phase.Returning? {
      var t := RunStep(cl, s, EventFor(w, s.phase));
      StepKeepsShells(cl, s, EventFor(w, s.phase));
      RunKeeps(cl, w, t);
    }
  }

  lemma Unfold(cl: Classifier, w: World, s: RunState)
    requires !s.phase.Returning?
    ensures Driven(cl, w, s) == Driven(cl, w, RunStep(cl, s, EventFor(w, s.phase)))
  {
  }

  /** The first failure was suspect and confirmed as a dead shell. */
  predicate FoundDead(cl: Classifier, a: Answer) {
    a.Failed? && Suspect(cl, a.fault) && cl.deadShell(a.fault)
  }

  /** The second half of a Run: the script is reissued only on a rebuilt, reconnected
      connection, and whatever that comes to is the result. */
  lemma RetryMeans(cl: Classifier, w: World, s: RunState)
    requires s.phase.Invalidating?
    ensures
      var t := Driven(cl, w, s);
      if !cl.deadShell(s.phase.fault) then
        t == RunState(Returning(Mapped(cl, Failed(s.phase.fault))), Invalidated(s.link, w.builds), s.answers)
      else if !w.redials then
        t == RunState(Returning(TransportError()), Invalidated(s.link, w.builds), s.answers)
      else
        t == RunState(Returning(Mapped(cl, w.reanswer)), Connected(Invalidated(s.link, w.builds), true),
                      s.answers + [w.reanswer])
  {
    var s4 := RunStep(cl, s, Builds(w.builds));
    Unfold(cl, w, s);
    if s4.phase.Reconnecting? {
      var s5 := RunStep(cl, s4, Dials(w.redials));
      Unfold(cl, w, s4);
      if s5.phase.Reexecuting? {
        Unfold(cl, w, s5);
      }
    }
  }

  /** What one Run comes to: how often it executes the script, what it returns, and what
      becomes of the connection. */
  lemma RunMeans(cl: Classifier, w: World, l: Link)
    ensures
      var t := Driven(cl, w, RunState(Decoding, l, []));
      if !w.decodes || !(l.conn.up || w.dials) then
        t == RunState(Returning(TransportError()), l, [])
      else if !(w.answer.Failed? && Suspect(cl, w.answer.fault)) then
        t == RunState(Returning(Mapped(cl, w.answer)), Connected(l, true), [w.answer])
      else if !(FoundDead(cl, w.answer) && w.redials) then
        && t.answers == [w.answer] && !t.link.conn.up
        && t.phase.outcome == (if FoundDead(cl, w.answer) then TransportError() else Mapped(cl, w.answer))
      else
        && t.answers == [w.answer, w.reanswer] && t.link.conn.up
        && t.phase.outcome == Mapped(cl, w.reanswer)
        && t.link.conn.exec == (if w.builds then l.shells.next else l.conn.exec)
  {
    hide Driven;
    var s0 := RunState(Decoding, l, []);
    var s1 := RunStep(cl, s0, Decodes(w.decodes));
    Unfold(cl, w, s0);
    ReturnedStays(cl, w, s1);
    if s1.phase.Connecting? {
      var s2 := RunStep(cl, s1, Dials(w.dials));
      Unfold(cl, w, s1);
      ReturnedStays(cl, w, s2);
      if s2.phase.Executing? {
        var s3 := RunStep(cl, s2, Answers(w.answer));
        Unfold(cl, w, s2);
        ReturnedStays(cl, w, s3);
        assert s3.answers == [w.answer];
        if s3.phase.Invalidating? {
          RetryMeans(cl, w, s3);
        }
      }
    }
  }

  /** The triage of one Run on a connection that is, or comes, up, answer by answer. */
  lemma TriageMeans(cl: Classifier, w: World, l: Link)
    requires Synced(l) && w.decodes && (l.conn.up || w.dials)
    ensures
      var t := Driven(cl, w, RunState(Decoding, l, []));
      match w.answer
      case Replied(reply) =>
        t.phase == Returning(Ran(reply)) && t.answers == [w.answer] && t.link.conn == l.conn.(up := true)
      case Failed(f) =>
        var kind := cl.mapError(f);
        if kind == None || kind == Some(KindTransient) || f.callerContext then
          t.phase == Returning(Errored(kind)) && t.answers == [w.answer] && t.link.conn == l.conn.(up := true)
        else if !cl.deadShell(f) then
          && t.phase == Returning(Errored(kind)) && t.answers == [w.answer]
          && !t.link.conn.up && l.conn.exec !in t.link.shells.live
          && t.link.conn.exec == (if w.builds then l.shells.next else l.conn.exec)
        else if !w.redials then
          && t.phase == Returning(Errored(Some(KindTransport))) && t.answers == [w.answer]
          && !t.link.conn.up && l.conn.exec !in t.link.shells.live
        else
          && t.answers == [w.answer, w.reanswer] && t.link.conn.up
          && t.link.conn.exec == (if w.builds then l.shells.next else l.conn.exec)
          && t.phase == Returning(if w.reanswer.Replied? then Ran(w.reanswer.reply)
                                  else Errored(cl.mapError(w.reanswer.fault)))
  {
    hide Driven;
    RunMeans(cl, w, l);
    if w.answer.Failed? && Suspect(cl, w.answer.fault) {
      var s0 := RunState(Decoding, l, []);
      var s1 := RunStep(cl, s0, Decodes(w.decodes));
      Unfold(cl, w, s0);
      var s2 := RunStep(cl, s1, Dials(w.dials));
      Unfold(cl, w, s1);
      var s3 := RunStep(cl, s2, Answers(w.answer));
      Unfold(cl, w, s2);
      RetryMeans(cl, w, s3);
    }
  }

  lemma ReturnedStays(cl: Classifier, w: World, s: RunState)
    ensures s.phase.Returning? ==> Driven(cl, w, s) == s
  {
  }

  // ---------- The retry loop ----------

  /** ParseEnvelope and asError: None is success. */
  function Verdict(o: Outcome): Option<Kind> {
    match o
    case Ran(Done) => None
    case Ran(Refused(k)) => Some(k)
    case Ran(Garbled) => Some(KindTransport)
    case Errored(Some(k)) => Some(k)
    case Errored(None) => Some(KindTransport)
  }

  /** Kind.Retryable: only a transient failure is. */
  predicate Retryable(o: Outcome) {
    Verdict(o) == Some(KindTransient)
  }

  /** The loop stops at a success, at an error that is not retryable and at the last attempt. */
  predicate Stops(o: Outcome, attempt: int, maxAttempts: int) {
    !Retryable(o) || attempt == maxAttempts
  }

  /** What the caller gets; a success whose data cannot be decoded is a transport error. */
  function Final(o: Outcome, readable: bool): Option<Kind> {
    if Verdict(o) == None && !readable then Some(KindTransport) else Verdict(o)
  }
}
