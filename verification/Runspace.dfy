/** The runspace executor behind the local and ssh pools (internal/psrun/psrun.go), and
    why its error detection meets what the retry policy needs. */
module Runspace {
  import opened Common
  import opened PoolSteps
  import Protocol
  import PT = ProtocolTheorems

  /** The byte streams (child processes, ssh channels) that are open. */
  class Streams {
    var open: set<nat>
    var next: nat

    ghost predicate Valid()
      reads this
    {
      forall h :: h in open ==> h < next
    }

    constructor ()
      ensures Valid() && open == {}
    {
      open, next := {}, 0;
    }

    method Open() returns (h: nat)
      requires Valid()
      modifies this
      ensures Valid() && h == old(next) && h !in old(open) && open == old(open) + {h}
    {
      h := next;
      open, next := open + {h}, next + 1;
    }

    method Close(h: nat)
      requires Valid()
      modifies this
      ensures Valid() && open == old(open) - {h}
    {
      open := open - {h};
    }
  }

  /** A Go error as a chain: a cause, wrapped any number of times, with or without the
      pre-send mark among the wrappers. */
  datatype GoError = Plain | ContextDone | Wrapped(inner: GoError) | PreSend(inner: GoError)

  /** errors.As with the pre-send mark: it looks at every link of the chain. */
  predicate Marked(e: GoError) {
    match e
    case Plain => false
    case ContextDone => false
    case Wrapped(inner) => Marked(inner)
    case PreSend(_) => true
  }

  /** errors.Is with the caller's cancellation or deadline, the same way. */
  predicate FromContext(e: GoError) {
    match e
    case Plain => false
    case ContextDone => true
    case Wrapped(inner) => FromContext(inner)
    case PreSend(inner) => FromContext(inner)
  }

  /** The error wrapped `n` times. */
  function WrappedTimes(n: nat, e: GoError): GoError {
    if n == 0 then e else Wrapped(WrappedTimes(n - 1, e))
  }

  /** The mark and the caller's context are found at any depth, and only if they are there. */
  lemma {:induction false} FoundAtAnyDepth(n: nat, e: GoError)
    ensures Marked(WrappedTimes(n, PreSend(e))) && FromContext(WrappedTimes(n, ContextDone))
    ensures !Marked(WrappedTimes(n, Plain)) && !FromContext(WrappedTimes(n, Plain))
    ensures FromContext(WrappedTimes(n, PreSend(e))) <==> FromContext(e)
  {
    if n > 0 {
      FoundAtAnyDepth(n - 1, e);
    }
  }

  /** How far one Execute gets, and the cause where it stops.  The error of a pipeline
      that ended abnormally is formatted as text, not wrapped: its chain is cut. */
  datatype Course =
    | CreateFails(cause: GoError)
    | InvokeFails(cause: GoError)
    | EndsAbnormally(cause: GoError)
    | Completes(reply: Reply)

  /** What an Execute returns, and whether the script was handed to the runspace. */
  function Executed(course: Course): (Result<Reply, GoError>, bool) {
    match course
    case CreateFails(cause) => (Err(PreSend(Wrapped(cause))), false)
    case InvokeFails(cause) => (Err(Wrapped(cause)), true)
    case EndsAbnormally(_) => (Err(Plain), true)
    case Completes(reply) => (Ok(reply), true)
  }

  class Executor {
    const streams: Streams
    var ch: Option<nat>

    constructor (streams: Streams)
      ensures this.streams == streams && ch == None
    {
      this.streams := streams;
      ch := None;
    }

    /** The executor holds an open stream. */
    predicate Live()
      reads this, streams
    {
      ch.Some? && ch.value in streams.open
    }

    /** Connect: a failure leaves no stream behind; the opener marks its own errors, and
        the runspace's is marked here. */
    method Connect(dial: Option<GoError>, runspace: Option<GoError>) returns (err: Option<GoError>)
      requires streams.Valid() && !Live()
      modifies this, streams
      ensures streams.Valid()
      ensures err == None <==> dial == None && runspace == None
      ensures err == None ==> Live() && ch.value !in old(streams.open) && streams.open == old(streams.open) + {ch.value}
      ensures err.Some? ==> streams.open == old(streams.open) && !Live()
      ensures err.Some? && dial.Some? ==> err == dial
      ensures err.Some? && dial.None? ==> Marked(err.value)
    {
      if dial.Some? {
        return dial;
      }
      var h := streams.Open();
      if runspace.Some? {
        streams.Close(h);
        assert streams.open == old(streams.open);
        return Some(PreSend(Wrapped(runspace.value)));
      }
      ch := Some(h);
      return None;
    }

    /** Execute: the script itself goes out with Invoke.  An error is marked pre-send iff
        nothing was sent or the cause of a failed Invoke brought the mark along. */
    method Execute(course: Course) returns (r: Result<Reply, GoError>, sent: bool)
      requires Live()
      ensures (r, sent) == Executed(course)
      ensures r.Ok? ==> sent
      ensures course.Completes? <==> r.Ok?
      ensures course.Completes? ==> r == Ok(course.reply)
      ensures sent <==> !course.CreateFails?
      ensures r.Err? ==> (Marked(r.error) <==> !sent || (course.InvokeFails? && Marked(course.cause)))
    {
      sent := false;
      if course.CreateFails? {
        return Err(PreSend(Wrapped(course.cause))), sent;
      }
      sent := true;
      if course.InvokeFails? {
        return Err(Wrapped(course.cause)), sent;
      }
      if course.EndsAbnormally? {
        return Err(Plain), sent;
      }
      return Ok(course.reply), sent;
    }

    /** Close releases the stream, and only that. */
    method Close()
      requires streams.Valid()
      modifies streams
      ensures streams.Valid() && !Live()
      ensures streams.open == old(streams.open) - (if ch.Some? then {ch.value} else {})
    {
      if ch.Some? {
        streams.Close(ch.value);
      }
    }
  }

  // ---------- The classifier, over the errors Execute returns ----------

  /** Classifier.MapError. */
  function MapError(e: GoError): Kind {
    KindTransport
  }

  /** Classifier.DeadShell. */
  predicate DeadShell(e: GoError) {
    Marked(e)
  }

  /** The pool's faults are errors of Executes: `course` says how the Execute behind each
      went, and all the pool has of it is the error. */
  ghost predicate Arises(cl: Classifier, delivered: Fault -> bool, course: Fault -> Course) {
    forall f ::
      var (r, sent) := Executed(course(f));
      && r.Err? && delivered(f) == sent && f.callerContext == FromContext(r.error)
      && cl.mapError(f) == Some(MapError(r.error)) && cl.deadShell(f) == DeadShell(r.error)
  }

  /** The cause of a failed Invoke carries the mark, and does not stem from the caller's
      context.  The mark is put on by openers, Connect and CreatePipeline only, so a cause
      from the runspace library has none. */
  predicate MarkedInvoke(course: Course) {
    course.InvokeFails? && Marked(course.cause) && !FromContext(course.cause)
  }

  /** Which failures the pool takes for a dead shell: those before Invoke that are not the
      caller's own doing, and failed Invokes whose cause was marked already. */
  lemma DeadIff(cl: Classifier, delivered: Fault -> bool, course: Fault -> Course, f: Fault)
    requires Arises(cl, delivered, course)
    ensures FoundDead(cl, Failed(f)) <==> (!delivered(f) && !f.callerContext) || MarkedInvoke(course(f))
    ensures !Transient(cl, f)
  {
    var (r, sent) := Executed(course(f));
    assert cl.mapError(f) == Some(MapError(r.error)) && cl.deadShell(f) == DeadShell(r.error);
    assert delivered(f) == sent && f.callerContext == FromContext(r.error);
  }

  /** Whatever went wrong, Run's caller gets a transport error, which is never retried. */
  lemma AlwaysTransport(cl: Classifier, delivered: Fault -> bool, course: Fault -> Course, f: Fault)
    requires Arises(cl, delivered, course)
    ensures Mapped(cl, Failed(f)) == Errored(Some(KindTransport))
  {
    var (r, sent) := Executed(course(f));
    assert cl.mapError(f) == Some(MapError(r.error));
  }

  /** A pipeline that ended abnormally costs the pool its shell, whatever the cause, and is
      not issued again. */
  lemma AbnormalIsSuspect(cl: Classifier, delivered: Fault -> bool, course: Fault -> Course, f: Fault)
    requires Arises(cl, delivered, course) && course(f).EndsAbnormally?
    ensures Suspect(cl, f) && !cl.deadShell(f)
  {
    var (r, sent) := Executed(course(f));
    assert f.callerContext == FromContext(r.error) && cl.mapError(f) == Some(MapError(r.error));
    assert cl.deadShell(f) == DeadShell(r.error);
  }

  /** The caller gave up: the cause of the failure, wherever it came, is its context. */
  predicate CallerGaveUp(course: Course) {
    !course.Completes? && FromContext(course.cause)
  }

  /** A caller that gives up costs the pool its shell exactly if that surfaced as the
      abnormal end of the pipeline, where the error's text does not carry the cause. */
  lemma TimeoutCostsShellIff(cl: Classifier, delivered: Fault -> bool, course: Fault -> Course, f: Fault)
    requires Arises(cl, delivered, course) && CallerGaveUp(course(f))
    ensures Suspect(cl, f) <==> course(f).EndsAbnormally?
  {
    var (r, sent) := Executed(course(f));
    assert f.callerContext == FromContext(r.error) && cl.mapError(f) == Some(MapError(r.error));
  }

  /** Two timeouts of one caller: one while the script is sent, which leaves the shell to
      the pool, and one while it runs, which costs it. */
  lemma TimeoutExample()
    ensures CallerGaveUp(InvokeFails(ContextDone)) && CallerGaveUp(EndsAbnormally(ContextDone))
    ensures
      var course := (f: Fault) => if f.callerContext then InvokeFails(ContextDone) else EndsAbnormally(ContextDone);
      var cl := Classifier(_ => Some(KindTransport), _ => false);
      && Arises(cl, _ => true, course)
      && !Suspect(cl, Fault(0, true)) && Suspect(cl, Fault(0, false))
  {
  }

  /** The classifier meets what the retry policy needs iff no failed Invoke is marked. */
  lemma RunspaceIsSound(cfg: Protocol.Config, delivered: Fault -> bool, course: Fault -> Course)
    requires Arises(cfg.cl, delivered, course)
    ensures PT.Sound(cfg, delivered) <==> cfg.maxAttempts < 1 || forall f :: !MarkedInvoke(course(f))
  {
    hide Arises, FoundDead, Transient;
    forall f
      ensures !Transient(cfg.cl, f)
      ensures FoundDead(cfg.cl, Failed(f)) <==> (!delivered(f) && !f.callerContext) || MarkedInvoke(course(f))
      ensures MarkedInvoke(course(f)) ==> delivered(f)
    {
      DeadIff(cfg.cl, delivered, course, f);
      Delivers(cfg.cl, delivered, course, f);
    }
  }

  lemma Delivers(cl: Classifier, delivered: Fault -> bool, course: Fault -> Course, f: Fault)
    requires Arises(cl, delivered, course)
    ensures course(f).InvokeFails? ==> delivered(f)
  {
    var (r, sent) := Executed(course(f));
    assert delivered(f) == sent;
  }

  /** So over runspace executors a pool applies no operation and then issues it again, in
      any reachable state, iff no failed Invoke is marked. */
  lemma RunspacePoolAtMostOnce(cfg: Protocol.Config, delivered: Fault -> bool, course: Fault -> Course)
    requires cfg.n >= 1 && cfg.ops >= 1 && cfg.maxAttempts >= 1 && Arises(cfg.cl, delivered, course)
    ensures PT.AlwaysAtMostOnce(cfg, delivered) <==> forall f :: !MarkedInvoke(course(f))
  {
    hide Arises, PT.Sound, PT.AlwaysAtMostOnce;
    RunspaceIsSound(cfg, delivered, course);
    PT.AtMostOnceIff(cfg, delivered);
  }
}
