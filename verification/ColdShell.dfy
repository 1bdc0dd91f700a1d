/** The cold WinRS transport (transport/winrm/cold.go, coldexec.go): one fresh shell an
    operation, and which of its failures are transient. */
module ColdShell {
  import opened Common
  import opened PoolSteps
  import CoreExec

  /** How far the steps of one operation get; the process blocks until its standard
      input ends, so it does nothing before CloseStdin is attempted. */
  datatype Course =
    | CreateFails | StartFails | SendFails | EofFails | WaitFails
    | Exits(reply: Reply)

  /** What exec returns as far as retrying is concerned, and whether the end of standard
      input was attempted. */
  function Executed(course: Course): (Outcome, bool) {
    match course
    case CreateFails => (Errored(Some(KindTransient)), false)
    case StartFails => (Errored(Some(KindTransient)), false)
    case SendFails => (Errored(Some(KindTransient)), false)
    case EofFails => (Errored(Some(KindTransport)), true)
    case WaitFails => (Errored(Some(KindTransport)), true)
    case Exits(reply) => (Ran(reply), true)
  }

  /** The operation may have taken effect: its input was ended, and the directory did not
      answer with a transient refusal. */
  predicate MaybeApplied(o: Outcome, eofAttempted: bool) {
    eofAttempted && o != Ran(Refused(KindTransient))
  }

  class Executor {
    var shells: nat

    constructor ()
      ensures shells == 0
    {
      shells := 0;
    }

    /** exec: the shell is closed on every way out.  An error is transient exactly when
        the end of standard input was never attempted. */
    method Exec(course: Course) returns (o: Outcome, eofAttempted: bool)
      modifies this
      ensures shells == old(shells) && (o, eofAttempted) == Executed(course)
      ensures o.Errored? ==> (o.kind == Some(KindTransient) <==> !eofAttempted)
      ensures o.Ran? ==> eofAttempted
      ensures course.Exits? <==> o.Ran?
      ensures course.Exits? ==> o == Ran(course.reply)
      ensures eofAttempted <==> course.EofFails? || course.WaitFails? || course.Exits?
    {
      eofAttempted := false;
      if course.CreateFails? {
        return Errored(Some(KindTransient)), false;
      }
      shells := shells + 1;
      if course.StartFails? || course.SendFails? {
        shells := shells - 1;
        return Errored(Some(KindTransient)), false;
      }
      eofAttempted := true;
      if course.EofFails? || course.WaitFails? {
        shells := shells - 1;
        return Errored(Some(KindTransport)), true;
      }
      shells := shells - 1;
      return Ran(course.reply), true;
    }
  }

  /** What the outside world decides during one Run. */
  datatype Attempt = Attempt(acquires: bool, decodes: bool, course: Course)

  /** Run's outcome, and whether the end of standard input was attempted. */
  function RunResult(a: Attempt): (Outcome, bool) {
    if a.acquires && a.decodes then Executed(a.course) else (TransportError(), false)
  }

  class ColdTransport {
    const exec: Executor
    const concurrency: nat
    var taken: nat

    ghost predicate Valid()
      reads this
    {
      taken <= concurrency
    }

    constructor (concurrency: nat)
      ensures Valid() && taken == 0 && this.concurrency == concurrency && fresh(exec) && exec.shells == 0
    {
      this.concurrency := concurrency;
      exec := new Executor();
      taken := 0;
    }

    /** Run: a slot of the semaphore is held throughout and given back on every way out.
        The retry loop would go on only if the operation cannot have taken effect. */
    method Run(a: Attempt) returns (o: Outcome, eofAttempted: bool)
      requires Valid() && (a.acquires ==> taken < concurrency)
      modifies this, exec
      ensures Valid() && taken == old(taken) && exec.shells == old(exec.shells)
      ensures (o, eofAttempted) == RunResult(a)
      ensures !a.acquires || !a.decodes ==> o == Errored(Some(KindTransport)) && !eofAttempted
      ensures Retryable(o) ==> !MaybeApplied(o, eofAttempted)
    {
      if !a.acquires {
        return Errored(Some(KindTransport)), false;
      }
      taken := taken + 1;
      if !a.decodes {
        taken := taken - 1;
        return Errored(Some(KindTransport)), false;
      }
      o, eofAttempted := exec.Exec(a.course);
      taken := taken - 1;
    }
  }

  /** When the retry loop goes on after an attempt: exactly when it cannot have taken
      effect, once it has a slot and a script.  Without either it stops though nothing ran. */
  lemma RetriedIff(a: Attempt)
    ensures var (o, eof) := RunResult(a);
      Retryable(o) <==> !MaybeApplied(o, eof) && a.acquires && a.decodes
  {
    match a.course
    case Exits(Done) =>
    case Exits(Refused(_)) =>
    case Exits(Garbled) =>
    case _ =>
  }

  /** A call over this transport, attempt by attempt as its Run decides: none but the last
      may have taken effect, and success means that the last one ran to a success. */
  method Call(maxAttempts: int, attempts: nat -> Attempt, readable: nat -> bool, wakes: nat -> bool)
    returns (verdict: Option<Kind>, used: nat)
    ensures forall k :: 1 <= k < used ==>
      var (o, eof) := RunResult(attempts(k)); !MaybeApplied(o, eof) && attempts(k).acquires && attempts(k).decodes
    ensures used <= if maxAttempts < 1 then 0 else maxAttempts
    ensures maxAttempts >= 1 && verdict == None ==> used >= 1 && RunResult(attempts(used)) == (Ran(Done), true)
    ensures maxAttempts >= 1 && attempts(used) == Attempt(true, true, Exits(Done)) && readable(used) ==> verdict == None
    ensures forall k ::
      maxAttempts >= 1 && k != KindTransient && attempts(used) == Attempt(true, true, Exits(Refused(k))) ==>
        verdict == Some(k)
    ensures maxAttempts >= 1 && verdict == Some(KindTransient) ==>
      used == maxAttempts && Retryable(RunResult(attempts(used)).0)
  {
    hide Executed;
    var turns := (k: nat) => CoreExec.Turn(RunResult(attempts(k)).0, readable(k), wakes(k));
    verdict, used := CoreExec.Exec(maxAttempts, turns);
    forall k | 1 <= k < used
      ensures var (o, eof) := RunResult(attempts(k));
        !MaybeApplied(o, eof) && attempts(k).acquires && attempts(k).decodes
    {
      assert Retryable(turns(k).outcome);
      RetriedIff(attempts(k));
    }
    if maxAttempts >= 1 {
      assert turns(used).outcome == RunResult(attempts(used)).0;
      RanMeansEof(attempts(used));
      forall reply
        ensures RunResult(Attempt(true, true, Exits(reply))) == (Ran(reply), true)
      {
        ExitGives(reply);
      }
    }
  }

  lemma ExitGives(reply: Reply)
    ensures RunResult(Attempt(true, true, Exits(reply))) == (Ran(reply), true)
  {
  }

  lemma RanMeansEof(a: Attempt)
    ensures RunResult(a).0.Ran? ==> RunResult(a).1
  {
  }
}
