/** The retry loop (core.go), whose single steps the protocol interleaves. */
module CoreExec {
  import opened Common
  import opened PoolSteps
  import Protocol

  /** What attempt k comes to: the transport's outcome, whether the data of a success can
      be decoded, and whether the wait after it ends before the caller's context does. */
  datatype Turn = Turn(outcome: Outcome, readable: bool, wakes: bool)

  /** exec's loop.  It goes on exactly while an attempt is transient and one is left. */
  method Exec(maxAttempts: int, turns: nat -> Turn) returns (verdict: Option<Kind>, used: nat)
    ensures maxAttempts < 1 ==> verdict == None && used == 0
    ensures maxAttempts >= 1 ==> 1 <= used <= maxAttempts
    ensures forall k :: 1 <= k < used ==> Retryable(turns(k).outcome) && turns(k).wakes
    ensures maxAttempts >= 1 ==>
      if Stops(turns(used).outcome, used, maxAttempts) then verdict == Final(turns(used).outcome, turns(used).readable)
      else !turns(used).wakes && verdict == Some(KindTransport)
    ensures maxAttempts >= 1 ==>
      var last, left := turns(used), used < maxAttempts;
      match last.outcome
      case Ran(Done) => verdict == if last.readable then None else Some(KindTransport)
      case Ran(Refused(k)) => verdict == Some(if k == KindTransient && left then KindTransport else k)
      case Ran(Garbled) => verdict == Some(KindTransport)
      case Errored(Some(k)) => verdict == Some(if k == KindTransient && left then KindTransport else k)
      case Errored(None) => verdict == Some(KindTransport)
  {
    var lastErr: Option<Kind> := None;
    var attempt := 1;
    while attempt <= maxAttempts
      invariant 1 <= attempt
      invariant attempt > 1 ==> attempt <= maxAttempts
      invariant attempt == 1 ==> lastErr == None
      invariant forall k :: 1 <= k < attempt ==> Retryable(turns(k).outcome) && turns(k).wakes
    {
      var turn := turns(attempt);
      lastErr := Verdict(turn.outcome);
      if lastErr == None {
        return if turn.readable then None else Some(KindTransport), attempt;
      }
      if lastErr.value != KindTransient || attempt == maxAttempts {
        return lastErr, attempt;
      }
      if !turn.wakes {
        return Some(KindTransport), attempt;
      }
      attempt := attempt + 1;
    }
    return lastErr, 0;
  }

  /** A finished call succeeds iff its last attempt ran to a readable success. */
  lemma SucceedsIff(o: Outcome, attempt: int, maxAttempts: int, readable: bool)
    requires Stops(o, attempt, maxAttempts)
    ensures Final(o, readable) == None <==> o == Ran(Done) && readable
    ensures Final(o, readable) == Some(KindTransient) <==> Retryable(o) && (attempt == maxAttempts)
  {
    match o
    case Ran(Done) =>
    case Ran(Refused(_)) =>
    case Ran(Garbled) =>
    case Errored(_) =>
  }
}
