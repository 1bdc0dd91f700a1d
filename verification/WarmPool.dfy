/** The warm pool as it is written (internal/warm/warm.go, conn.go, reap.go): objects
    updated in place.  Each method is tied to the atomic steps that the protocol
    interleaves; what executors answer is a parameter. */
module WarmPool {
  import opened Common
  import opened PoolSteps
  import Protocol

  /** The executors outside the process. */
  class ShellTable {
    var shells: Shells

    constructor ()
      ensures shells == Shells({}, 0)
    {
      shells := Shells({}, 0);
    }

    method Build() returns (exec: ExecId)
      modifies this
      ensures exec == old(shells.next) && shells == old(shells).(next := old(shells.next) + 1)
    {
      exec := shells.next;
      shells := shells.(next := exec + 1);
    }

    method Close(exec: ExecId)
      modifies this
      ensures shells == old(shells).(live := old(shells.live) - {exec})
    {
      shells := shells.(live := shells.live - {exec});
    }
  }

  class PooledConn {
    const table: ShellTable
    var exec: ExecId
    var up: bool
    var lastUsed: int

    constructor (table: ShellTable, exec: ExecId)
      ensures this.table == table && Value() == Conn(exec, false, 0)
    {
      this.table := table;
      this.exec, up, lastUsed := exec, false, 0;
    }

    function Value(): Conn
      reads this
    {
      Conn(exec, up, lastUsed)
    }

    function Linked(): Link
      reads this, table
    {
      Link(Value(), table.shells)
    }

    method EnsureConnected(ok: bool) returns (success: bool)
      modifies this, table
      ensures Linked() == Connected(old(Linked()), ok) && success == up
    {
      if up {
        return true;
      }
      if !ok {
        return false;
      }
      table.shells := table.shells.(live := table.shells.live + {exec});
      up := true;
      return true;
    }

    method Invalidate(built: bool)
      modifies this, table
      ensures Linked() == Invalidated(old(Linked()), built)
    {
      table.Close(exec);
      if built {
        exec := table.Build();
      }
      up := false;
    }

    method ReapIfIdle(now: int, reapAfter: int, built: bool)
      modifies this, table
      ensures Linked() == Reaped(old(Linked()), now, reapAfter, built)
    {
      if !up {
        return;
      }
      if now - lastUsed < reapAfter {
        return;
      }
      table.Close(exec);
      if built {
        exec := table.Build();
      }
      up := false;
    }
  }

  function Values(cs: seq<PooledConn>): (vs: seq<Conn>)
    reads cs
    ensures |vs| == |cs| && forall i :: 0 <= i < |cs| ==> vs[i] == cs[i].Value()
  {
    seq(|cs|, i requires 0 <= i < |cs| reads cs => cs[i].Value())
  }

  // ---------- A sweep of the reaper, specified ----------

  /** The connections and shells once the first `k` have been looked at. */
  function Swept(cs: seq<Conn>, sh: Shells, now: int, reapAfter: int, built: nat -> bool, k: nat)
    : (r: (seq<Conn>, Shells))
    requires k <= |cs|
    ensures |r.0| == |cs| && forall i :: k <= i < |cs| ==> r.0[i] == cs[i]
  {
    if k == 0 then (cs, sh)
    else
      var p := Swept(cs, sh, now, reapAfter, built, k - 1);
      var l := Reaped(Link(p.0[k - 1], p.1), now, reapAfter, built(k - 1));
      (p.0[k - 1 := l.conn], l.shells)
  }

  lemma SweptNone(cs: seq<Conn>, sh: Shells, now: int, reapAfter: int, built: nat -> bool)
    ensures Swept(cs, sh, now, reapAfter, built, 0) == (cs, sh)
  {
  }

  lemma SweptStep(cs: seq<Conn>, sh: Shells, now: int, reapAfter: int, built: nat -> bool, k: nat)
    requires k < |cs|
    ensures
      var p := Swept(cs, sh, now, reapAfter, built, k);
      var l := Reaped(Link(cs[k], p.1), now, reapAfter, built(k));
      Swept(cs, sh, now, reapAfter, built, k + 1) == (p.0[k := l.conn], l.shells)
  {
    hide Reaped;
  }

  /** What a sweep does: exactly the stale connections lose their shells and come out
      down; the others are as they were; nothing else is closed. */
  lemma {:induction false} SweptMeans(cs: seq<Conn>, sh: Shells, now: int, reapAfter: int, built: nat -> bool, k: nat)
    requires k <= |cs|
    ensures
      var r := Swept(cs, sh, now, reapAfter, built, k);
      && (forall i :: 0 <= i < k && !Stale(cs[i], now, reapAfter) ==> r.0[i] == cs[i])
      && (forall i :: 0 <= i < k && Stale(cs[i], now, reapAfter) ==> !r.0[i].up)
      && r.1.live == sh.live - set i | 0 <= i < k && Stale(cs[i], now, reapAfter) :: cs[i].exec
  {
    if k > 0 {
      SweptMeans(cs, sh, now, reapAfter, built, k - 1);
      var before := set i | 0 <= i < k - 1 && Stale(cs[i], now, reapAfter) :: cs[i].exec;
      var after := set i | 0 <= i < k && Stale(cs[i], now, reapAfter) :: cs[i].exec;
      assert after == if Stale(cs[k - 1], now, reapAfter) then before + {cs[k - 1].exec} else before;
    }
  }

  // ---------- A drain, specified ----------

  /** The shells once the first `k` connections have been drained. */
  function LiveAfter(cs: seq<Conn>, live: set<ExecId>, k: nat): (r: set<ExecId>)
    requires k <= |cs|
  {
    if k == 0 then live
    else if cs[k - 1].up then LiveAfter(cs, live, k - 1) - {cs[k - 1].exec} else LiveAfter(cs, live, k - 1)
  }

  /** Draining every connection leaves live only what none of them kept. */
  lemma {:induction false} LiveAfterMeans(cs: seq<Conn>, live: set<ExecId>, k: nat)
    requires k <= |cs|
    ensures LiveAfter(cs, live, k) == live - set i | 0 <= i < k && cs[i].up :: cs[i].exec
  {
    if k > 0 {
      LiveAfterMeans(cs, live, k - 1);
      var before := set i | 0 <= i < k - 1 && cs[i].up :: cs[i].exec;
      var after := set i | 0 <= i < k && cs[i].up :: cs[i].exec;
      assert after == if cs[k - 1].up then before + {cs[k - 1].exec} else before;
    }
  }

  /** The first of `k` connections that is up and whose Close fails. */
  function FirstFailure(cs: seq<Conn>, closes: nat -> bool, k: nat): (r: Option<nat>)
    requires k <= |cs|
    ensures r.Some? <==> exists i :: 0 <= i < k && cs[i].up && !closes(i)
    ensures r.Some? ==> r.value < k && cs[r.value].up && !closes(r.value)
    ensures r.Some? ==> forall i :: 0 <= i < r.value ==> !(cs[i].up && !closes(i))
  {
    if k == 0 then None
    else
      var p := FirstFailure(cs, closes, k - 1);
      if p.Some? then p else if cs[k - 1].up && !closes(k - 1) then Some(k - 1) else None
  }

  lemma DrainNone(cs: seq<Conn>, live: set<ExecId>, closes: nat -> bool)
    ensures LiveAfter(cs, live, 0) == live && FirstFailure(cs, closes, 0) == None
  {
  }

  lemma DrainStep(cs: seq<Conn>, live: set<ExecId>, closes: nat -> bool, k: nat)
    requires k < |cs|
    ensures LiveAfter(cs, live, k + 1) == LiveAfter(cs, live, k) - if cs[k].up then {cs[k].exec} else {}
    ensures FirstFailure(cs, closes, k + 1)
         == if FirstFailure(cs, closes, k) == None && cs[k].up && !closes(k) then Some(k)
             else FirstFailure(cs, closes, k)
  {
  }

  /** One connection from the front of the channel to its back. */
  lemma RotateStep<T>(cs: seq<T>, i: nat)
    requires i < |cs|
    ensures (cs[i..] + cs[..i])[0] == cs[i]
    ensures (cs[i..] + cs[..i])[1..] + [cs[i]] == cs[i + 1..] + cs[..i + 1]
  {
  }

  // ---------- The pool ----------

  /** The parameters New looks at. */
  datatype Params = Params(concurrency: int, timeout: int, reapAfter: int, hasBuild: bool, hasWrapper: bool,
                           classifier: Option<Classifier>)

  predicate Accepted(p: Params) {
    p.concurrency > 0 && p.timeout > 0 && p.reapAfter > 0 && p.hasBuild && p.hasWrapper && p.classifier.Some?
  }

  class Pool {
    const table: ShellTable
    const concurrency: nat
    const reapAfter: int
    const cl: Classifier
    var idle: seq<PooledConn>
    var closed: bool
    var closeErr: Option<nat>

    /** The idle channel holds distinct connections over the one shell table. */
    ghost predicate Valid()
      reads this
    {
      && |idle| <= concurrency
      && (forall i, j :: 0 <= i < j < |idle| ==> idle[i] != idle[j])
      && (forall i :: 0 <= i < |idle| ==> idle[i].table == table)
    }

    constructor (table: ShellTable, p: Params)
      requires Accepted(p)
      ensures this.table == table && concurrency == p.concurrency && reapAfter == p.reapAfter
      ensures cl == p.classifier.value
      ensures Valid() && idle == [] && !closed && closeErr == None
    {
      this.table := table;
      concurrency, reapAfter, cl := p.concurrency, p.reapAfter, p.classifier.value;
      idle, closed, closeErr := [], false, None;
    }

    /** New: refuse bad parameters; build one executor per connection, dial none. */
    static method New(p: Params, builds: nat -> bool) returns (r: Result<Pool, Kind>)
      ensures r.Ok? <==> Accepted(p) && forall i :: 0 <= i < p.concurrency ==> builds(i)
      ensures r.Err? ==> r.error == KindTransport
      ensures Accepted(p) <==>
        && p.concurrency > 0 && p.timeout > 0 && p.reapAfter > 0
        && p.hasBuild && p.hasWrapper && p.classifier.Some?
      ensures r.Ok? ==>
        var cfg := Protocol.Config(p.concurrency, 0, 0, p.reapAfter, p.classifier.value);
        && r.value.Valid() && fresh(r.value) && fresh(r.value.idle) && fresh(r.value.table)
        && |r.value.idle| == p.concurrency == r.value.concurrency && r.value.reapAfter == p.reapAfter
        && r.value.cl == p.classifier.value && !r.value.closed
        && Values(r.value.idle) == Protocol.Init(cfg).conns && r.value.table.shells == Protocol.Init(cfg).shells
    {
      if p.concurrency <= 0 || p.timeout <= 0 || p.reapAfter <= 0 || !p.hasBuild || !p.hasWrapper
         || p.classifier == None {
        return Err(KindTransport);
      }
      var table := new ShellTable();
      var pool := new Pool(table, p);
      for k := 0 to p.concurrency
        invariant pool.Valid() && |pool.idle| == k && fresh(pool) && fresh(pool.idle) && fresh(table)
        invariant !pool.closed && table.shells == Shells({}, k)
        invariant forall i :: 0 <= i < k ==> builds(i) && pool.idle[i].Value() == Conn(i, false, 0)
      {
        if !builds(k) {
          return Err(KindTransport);
        }
        var exec := table.Build();
        var c := new PooledConn(table, exec);
        pool.idle := pool.idle + [c];
      }
      return Ok(pool);
    }

    /** runOnce: connect if need be, execute, map the error. */
    method RunOnce(c: PooledConn, dials: bool, answer: Answer) returns (o: Outcome, answers: seq<Answer>)
      modifies c, c.table
      ensures c.Linked() == Connected(old(c.Linked()), dials)
      ensures c.up ==> o == Mapped(cl, answer) && answers == [answer]
      ensures !c.up ==> o == TransportError() && answers == []
    {
      var connected := c.EnsureConnected(dials);
      if !connected {
        return Errored(Some(KindTransport)), [];
      }
      match answer {
        case Replied(reply) => return Ran(reply), [answer];
        case Failed(f) => return Errored(cl.mapError(f)), [answer];
      }
    }

    /** Run between its checkout and its return: triage of the failure, one retry at most. */
    method RunOn(c: PooledConn, w: World) returns (o: Outcome, answers: seq<Answer>)
      modifies c, c.table
      ensures
        var t := Driven(cl, w, RunState(Decoding, old(c.Linked()), []));
        c.Linked() == t.link && o == t.phase.outcome && answers == t.answers
    {
      hide Driven;
      ghost var s := RunState(Decoding, c.Linked(), []);
      Unfold(cl, w, s);
      s := RunStep(cl, s, Decodes(w.decodes));
      ReturnedStays(cl, w, s);
      if !w.decodes {
        return Errored(Some(KindTransport)), [];
      }
      var connected := c.EnsureConnected(w.dials);
      Unfold(cl, w, s);
      s := RunStep(cl, s, Dials(w.dials));
      ReturnedStays(cl, w, s);
      if !connected {
        return Errored(Some(KindTransport)), [];
      }
      Unfold(cl, w, s);
      s := RunStep(cl, s, Answers(w.answer));
      ReturnedStays(cl, w, s);
      if w.answer.Replied? {
        return Ran(w.answer.reply), [w.answer];
      }
      var f := w.answer.fault;
      var mapped := cl.mapError(f);
      if mapped == None || mapped == Some(KindTransient) {
        return Errored(mapped), [w.answer];
      }
      if f.callerContext {
        return Errored(mapped), [w.answer];
      }
      RetryMeans(cl, w, s);
      c.Invalidate(w.builds);
      if !cl.deadShell(f) {
        return Errored(mapped), [w.answer];
      }
      var again: seq<Answer>;
      o, again := RunOnce(c, w.redials, w.reanswer);
      answers := [w.answer] + again;
    }

    /** Run.  `receives` is false when the caller's context ends before a connection is
        idle; a receive needs one. */
    method Run(receives: bool, w: World, now: int) returns (o: Outcome, answers: seq<Answer>)
      requires Valid() && (receives ==> idle != [])
      modifies this`idle, if idle != [] then {idle[0], table} else {}
      ensures Valid()
      ensures !receives ==>
        && o == Errored(Some(KindTransient)) && answers == [] && idle == old(idle)
        && Values(idle) == old(Values(idle)) && table.shells == old(table.shells)
      ensures receives ==>
        var t := Driven(cl, w, RunState(Decoding, old(idle[0].Linked()), []));
        && o == t.phase.outcome && answers == t.answers
        && idle == old(idle[1..]) + [old(idle[0])]
        && Values(idle) == old(Values(idle[1..])) + [t.link.conn.(lastUsed := now)] && table.shells == t.link.shells
    {
      hide Driven;
      if !receives {
        return Errored(Some(KindTransient)), [];
      }
      var c := idle[0];
      idle := idle[1..];
      o, answers := RunOn(c, w);
      c.lastUsed := now;
      idle := idle + [c];
    }

    /** reapIdle, undisturbed: one turn of the channel. */
    method ReapIdle(now: int, built: nat -> bool)
      requires Valid()
      modifies this`idle, idle, table
      ensures Valid() && idle == old(idle)
      ensures (Values(idle), table.shells) == Swept(old(Values(idle)), old(table.shells), now, reapAfter, built, |idle|)
    {
      hide Reaped, Swept;
      ghost var cs, was, sh := idle, Values(idle), table.shells;
      assert Swept(was, sh, now, reapAfter, built, 0) == (was, sh) by {
        SweptNone(was, sh, now, reapAfter, built);
      }
      var n := |idle|;
      for i := 0 to n
        invariant idle == cs[i..] + cs[..i]
        invariant (Values(cs), table.shells) == Swept(was, sh, now, reapAfter, built, i)
      {
        RotateStep(cs, i);
        var c := idle[0];
        idle := idle[1..];
        ghost var before := Values(cs);
        c.ReapIfIdle(now, reapAfter, built(i));
        assert Values(cs) == before[i := c.Value()];
        SweptStep(was, sh, now, reapAfter, built, i);
        idle := idle + [c];
      }
    }

    /** What Close does once: every connection is drained, and the ones that are up are closed. */
    method DrainAll(closes: nat -> bool) returns (firstErr: Option<nat>)
      requires |idle| == concurrency
      modifies this`idle, table
      ensures idle == [] && firstErr == FirstFailure(old(Values(idle)), closes, concurrency)
      ensures table.shells
           == old(table.shells).(live := LiveAfter(old(Values(idle)), old(table.shells.live), concurrency))
    {
      hide LiveAfter, FirstFailure;
      ghost var cs, was, sh := idle, Values(idle), table.shells;
      firstErr := None;
      DrainNone(was, sh.live, closes);
      for i := 0 to concurrency
        invariant Values(cs) == was && idle == cs[i..]
        invariant firstErr == FirstFailure(was, closes, i)
        invariant table.shells == sh.(live := LiveAfter(was, sh.live, i))
      {
        var c := idle[0];
        idle := idle[1..];
        assert was[i] == c.Value();
        DrainStep(was, sh.live, closes, i);
        if c.up {
          table.Close(c.exec);
          if !closes(i) && firstErr == None {
            firstErr := Some(i);
          }
        }
      }
    }

    /** Close, with no Run in flight and the reaper stopped.  A second call changes nothing. */
    method Close(closes: nat -> bool) returns (err: Option<nat>)
      requires Valid() && (!closed ==> |idle| == concurrency)
      modifies this, table
      ensures Valid() && closed && err == closeErr
      ensures old(closed) ==> idle == old(idle) && closeErr == old(closeErr) && table.shells == old(table.shells)
      ensures !old(closed) ==>
        && idle == [] && closeErr == FirstFailure(old(Values(idle)), closes, concurrency)
        && table.shells == old(table.shells).(live := LiveAfter(old(Values(idle)), old(table.shells.live), concurrency))
    {
      hide LiveAfter, FirstFailure;
      if closed {
        return closeErr;
      }
      err := DrainAll(closes);
      closed, closeErr := true, err;
    }
  }

  /** On a pool whose shells are all kept by idle connections, Close leaves none live. */
  lemma CloseLeavesNone(cs: seq<Conn>, live: set<ExecId>)
    requires forall e :: e in live ==> exists i :: 0 <= i < |cs| && cs[i].up && cs[i].exec == e
    ensures LiveAfter(cs, live, |cs|) == {}
  {
    LiveAfterMeans(cs, live, |cs|);
  }
}
