/** Failover executors in the pool: by the time a Run executes, the executor behind its
    connection is bound to an endpoint. */
module FailoverPool {
  import opened Common
  import opened PoolSteps
  import opened Protocol
  import opened ProtocolShells
  import opened ProtocolOps
  import F = Failover
  import PT = ProtocolTheorems

  /** The event is a Connect on executor `e`. */
  predicate DialsOn(cfg: Config, s: State, ev: Event, e: ExecId) {
    && ev.Acts? && ev.ev.Dials? && Enabled(cfg, s, ev)
    && !s.conns[s.ops[ev.op].pc.conn].up && s.conns[s.ops[ev.op].pc.conn].exec == e
  }

  /** The endpoint executor `e` is bound to once the events have happened, by the contract
      of the failover executor's Connect; `reached(k)` is where the k-th event, if it is a
      successful Connect, arrives. */
  function Bound(cfg: Config, evs: seq<Event>, reached: nat -> F.Endpoint, e: ExecId): Option<F.Endpoint>
    requires After(cfg, evs).Some?
  {
    if evs == [] then None
    else
      var k := |evs| - 1;
      var before := Bound(cfg, evs[..k], reached, e);
      if DialsOn(cfg, After(cfg, evs[..k]).value, evs[k], e) then
        F.Rebound(before, if evs[k].ev.ok then Some(reached(k)) else None)
      else before
  }

  /** An executor comes to life only by a successful Connect on it. */
  lemma ComesAlive(cfg: Config, s: State, ev: Event, e: ExecId)
    requires Enabled(cfg, s, ev) && e !in s.shells.live && e in Next(cfg, s, ev).shells.live
    ensures DialsOn(cfg, s, ev, e) && ev.ev.ok
  {
    hide Stops, Suspect, Mapped;
  }

  lemma {:induction false} BoundOnceLive(cfg: Config, evs: seq<Event>, reached: nat -> F.Endpoint, e: ExecId)
    requires After(cfg, evs).Some? && e in After(cfg, evs).value.shells.live
    ensures Bound(cfg, evs, reached, e).Some?
  {
    hide Next, Enabled, DialsOn;
    if evs != [] {
      var k := |evs| - 1;
      var s := After(cfg, evs[..k]).value;
      if e in s.shells.live {
        BoundOnceLive(cfg, evs[..k], reached, e);
      } else {
        ComesAlive(cfg, s, evs[k], e);
      }
    }
  }

  /** Whatever has happened, when a Run is about to execute, the executor of its connection
      is bound: Execute never runs into a nil endpoint. */
  lemma NeverUnbound(cfg: Config, evs: seq<Event>, reached: nat -> F.Endpoint, i: nat, a: Answer)
    requires After(cfg, evs).Some? && Enabled(cfg, After(cfg, evs).value, Acts(i, Answers(a)))
    ensures
      var s := After(cfg, evs).value;
      Bound(cfg, evs, reached, s.conns[s.ops[i].pc.conn].exec).Some?
  {
    var s := After(cfg, evs).value;
    PT.ExecutesOnlyLive(cfg, s, i, a);
    BoundOnceLive(cfg, evs, reached, s.conns[s.ops[i].pc.conn].exec);
  }
}
