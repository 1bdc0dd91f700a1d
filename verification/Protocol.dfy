/** The pool as a concurrent protocol (internal/warm/warm.go, internal/warm/reap.go,
    core.go): any number of operations retrying Runs, one reaper and one Close share a
    bounded channel of connections.  A run of the system is any interleaving of the
    atomic steps below. */
module Protocol {
  import opened Common
  import opened PoolSteps

  type ConnId = nat

  datatype Config = Config(n: nat, ops: nat, maxAttempts: int, reapAfter: int, cl: Classifier)

  /** Where an operation stands in core.exec; `conn` is the connection its Run holds. */
  datatype Pc =
    | Starting(attempt: int)
    | Holding(attempt: int, conn: ConnId, phase: Phase)
    | Judging(attempt: int, outcome: Outcome)
    | BackingOff(attempt: int)
    | Finished(verdict: Option<Kind>)

  /** `answers` is what each Execute issued for the operation came to, oldest first. */
  datatype Op = Op(pc: Pc, answers: seq<Answer>)

  datatype Reaper =
    | Resting
    | Sweeping(left: nat, now: int)
    | Grasping(conn: ConnId, left: nat, now: int, done: bool)
    | Exited

  datatype Closer = Open | Stopping | Draining | Closed

  datatype State = State(
    conns: seq<Conn>,
    shells: Shells,
    idle: seq<ConnId>,
    ops: seq<Op>,
    reaper: Reaper,
    closer: Closer,
    drained: seq<ConnId>)

  datatype Event =
    | Checkout(op: nat) | GiveUp(op: nat) | Acts(op: nat, ev: RunEvent) | GivesBack(op: nat, now: int)
    | Judges(op: nat, readable: bool) | Wakes(op: nat, ok: bool)
    | Tick(now: int) | Takes | Reaps(built: bool) | Puts | Exits
    | StopReaper | ReaperGone | Drains | Finishes

  function Init(cfg: Config): State {
    State(seq(cfg.n, i requires 0 <= i < cfg.n => Conn(i, false, 0)), Shells({}, cfg.n), seq(cfg.n, i => i),
          seq(cfg.ops, i => Op(if cfg.maxAttempts < 1 then Finished(None) else Starting(1), [])),
          Resting, Open, [])
  }

  // ---------- The steps ----------

  /** A send to the idle channel blocks while it is full. */
  predicate RoomToSend(cfg: Config, s: State) {
    |s.idle| < cfg.n
  }

  /** The event is about an operation there is. */
  predicate Known(s: State, op: nat) {
    op < |s.ops|
  }

  /** The connection is one of the pool's. */
  predicate Exists(s: State, c: ConnId) {
    c < |s.conns|
  }

  predicate Enabled(cfg: Config, s: State, ev: Event) {
    match ev
    case Checkout(i) => Known(s, i) && s.ops[i].pc.Starting? && s.idle != []
    case GiveUp(i) => Known(s, i) && s.ops[i].pc.Starting?
    case Acts(i, rev) =>
      && Known(s, i) && s.ops[i].pc.Holding? && Exists(s, s.ops[i].pc.conn)
      && Expects(s.ops[i].pc.phase, rev)
    case GivesBack(i, _) =>
      && Known(s, i) && s.ops[i].pc.Holding? && Exists(s, s.ops[i].pc.conn) && s.ops[i].pc.phase.Returning?
      && RoomToSend(cfg, s)
    case Judges(i, _) => Known(s, i) && s.ops[i].pc.Judging?
    case Wakes(i, _) => Known(s, i) && s.ops[i].pc.BackingOff?
    case Tick(_) => s.reaper.Resting?
    case Takes => s.reaper.Sweeping?
    case Reaps(_) => s.reaper.Grasping? && !s.reaper.done && Exists(s, s.reaper.conn)
    case Puts => s.reaper.Grasping? && s.reaper.done && RoomToSend(cfg, s)
    case Exits => s.reaper.Resting? && s.closer.Stopping?
    case StopReaper => s.closer.Open?
    case ReaperGone => s.closer.Stopping? && s.reaper.Exited?
    case Drains => s.closer.Draining? && |s.drained| < cfg.n && s.idle != [] && Exists(s, s.idle[0])
    case Finishes => s.closer.Draining? && |s.drained| == cfg.n
  }

  function Updated(s: State, i: nat, op: Op): State
    requires Known(s, i)
  {
    s.(ops := s.ops[i := op])
  }

  function Relinked(s: State, c: ConnId, l: Link): State
    requires Exists(s, c)
  {
    s.(conns := s.conns[c := l.conn], shells := l.shells)
  }

  function LinkOf(s: State, c: ConnId): Link
    requires Exists(s, c)
  {
    Link(s.conns[c], s.shells)
  }

  /** The state of the Run that operation `i` is in. */
  function RunOf(s: State, i: nat): RunState
    requires Known(s, i) && s.ops[i].pc.Holding? && Exists(s, s.ops[i].pc.conn)
  {
    RunState(s.ops[i].pc.phase, LinkOf(s, s.ops[i].pc.conn), s.ops[i].answers)
  }

  /** What operation `i` does next once its Run has returned `o`. */
  function Judged(cfg: Config, attempt: int, o: Outcome, readable: bool): Pc {
    if Stops(o, attempt, cfg.maxAttempts) then Finished(Final(o, readable)) else BackingOff(attempt)
  }

  function Drained(s: State): State
    requires s.idle != [] && Exists(s, s.idle[0])
  {
    var c := s.idle[0];
    s.(idle := s.idle[1..], drained := s.drained + [c],
    shells := if s.conns[c].up then s.shells.(live := s.shells.live - {s.conns[c].exec}) else s.shells)
  }

  function Next(cfg: Config, s: State, ev: Event): State
    requires Enabled(cfg, s, ev)
  {
    match ev
    case Checkout(i) =>
      Updated(s, i, s.ops[i].(pc := Holding(s.ops[i].pc.attempt, s.idle[0], Decoding))).(idle := s.idle[1..])
    case GiveUp(i) =>
      Updated(s, i, s.ops[i].(pc := Judging(s.ops[i].pc.attempt, Errored(Some(KindTransient)))))
    case Acts(i, rev) =>
      var pc := s.ops[i].pc;
      var r := RunStep(cfg.cl, RunOf(s, i), rev);
      Relinked(Updated(s, i, Op(Holding(pc.attempt, pc.conn, r.phase), r.answers)), pc.conn, r.link)
    case GivesBack(i, now) =>
      var pc := s.ops[i].pc;
      Updated(s, i, s.ops[i].(pc := Judging(pc.attempt, pc.phase.outcome)))
      .(conns := s.conns[pc.conn := s.conns[pc.conn].(lastUsed := now)], idle := s.idle + [pc.conn])
    case Judges(i, readable) =>
      Updated(s, i, s.ops[i].(pc := Judged(cfg, s.ops[i].pc.attempt, s.ops[i].pc.outcome, readable)))
    case Wakes(i, ok) =>
      Updated(s, i, s.ops[i].(pc := if ok then Starting(s.ops[i].pc.attempt + 1) else Finished(Some(KindTransport))))
    case Tick(now) =>
      s.(reaper := Sweeping(|s.idle|, now))
    case Takes =>
      if s.reaper.left == 0 || s.idle == [] then s.(reaper := Resting)
      else s.(reaper := Grasping(s.idle[0], s.reaper.left - 1, s.reaper.now, false), idle := s.idle[1..])
    case Reaps(built) =>
      var r := s.reaper;
      Relinked(s, r.conn, Reaped(LinkOf(s, r.conn), r.now, cfg.reapAfter, built)).(reaper := r.(done := true))
    case Puts =>
      s.(reaper := Sweeping(s.reaper.left, s.reaper.now), idle := s.idle + [s.reaper.conn])
    case Exits => s.(reaper := Exited)
    case StopReaper => s.(closer := Stopping)
    case ReaperGone => s.(closer := Draining)
    case Drains => Drained(s)
    case Finishes => s.(closer := Closed)
  }

  /** The state after the events, if each was enabled when it happened. */
  function After(cfg: Config, evs: seq<Event>): Option<State> {
    if evs == [] then Some(Init(cfg))
    else
      var k := |evs| - 1;
      var p := After(cfg, evs[..k]);
      if p.Some? && Enabled(cfg, p.value, evs[k]) then Some(Next(cfg, p.value, evs[k])) else None
  }

  ghost predicate Reachable(cfg: Config, s: State) {
    exists evs :: After(cfg, evs) == Some(s)
  }

  lemma ReachableNext(cfg: Config, s: State, ev: Event)
    requires Reachable(cfg, s) && Enabled(cfg, s, ev)
    ensures Reachable(cfg, Next(cfg, s, ev))
  {
    var evs :| After(cfg, evs) == Some(s);
    assert (evs + [ev])[..|evs|] == evs;
    assert After(cfg, evs + [ev]) == Some(Next(cfg, s, ev));
  }

  // ---------- Who holds which connection ----------

  function HeldBy(op: Op): multiset<ConnId> {
    if op.pc.Holding? then multiset{op.pc.conn} else multiset{}
  }

  function Held(ops: seq<Op>): multiset<ConnId> {
    if ops == [] then multiset{} else Held(ops[..|ops| - 1]) + HeldBy(ops[|ops| - 1])
  }

  function InHand(r: Reaper): multiset<ConnId> {
    if r.Grasping? then multiset{r.conn} else multiset{}
  }

  /** Every place a connection can be. */
  function Places(s: State): multiset<ConnId> {
    multiset(s.idle) + Held(s.ops) + InHand(s.reaper) + multiset(s.drained)
  }

  function All(n: nat): multiset<ConnId> {
    if n == 0 then multiset{} else All(n - 1) + multiset{n - 1}
  }

  lemma {:induction false} AllCounts(n: nat)
    ensures |All(n)| == n
    ensures forall c: nat :: All(n)[c] == if c < n then 1 else 0
  {
    if n > 0 {
      AllCounts(n - 1);
    }
  }

  lemma SumSwap(a: multiset<ConnId>, b: multiset<ConnId>, h: multiset<ConnId>, k: multiset<ConnId>, x: multiset<ConnId>)
    requires a + h == b + k
    ensures (a + x) + h == (b + x) + k
  {
    assert (a + x) + h == (a + h) + x;
    assert (b + x) + k == (b + k) + x;
  }

  lemma SumTail(a: multiset<ConnId>, h: multiset<ConnId>, k: multiset<ConnId>)
    ensures (a + h) + k == (a + k) + h
  {
  }

  /** Replacing one operation changes what is held by what that operation holds. */
  lemma {:induction false} HeldUpdate(ops: seq<Op>, i: nat, op: Op)
    requires i < |ops|
    ensures Held(ops[i := op]) + HeldBy(ops[i]) == Held(ops) + HeldBy(op)
  {
    hide HeldBy;
    var k := |ops| - 1;
    if i == k {
      assert ops[i := op][..k] == ops[..k];
      SumTail(Held(ops[..k]), HeldBy(op), HeldBy(ops[i]));
    } else {
      HeldUpdate(ops[..k], i, op);
      assert ops[i := op][..k] == ops[..k][i := op];
      SumSwap(Held(ops[..k][i := op]), Held(ops[..k]), HeldBy(ops[i]), HeldBy(op), HeldBy(ops[k]));
    }
  }

  lemma {:induction false} HeldIncludes(ops: seq<Op>, i: nat)
    requires i < |ops|
    ensures HeldBy(ops[i]) <= Held(ops)
  {
    var k := |ops| - 1;
    if i < k {
      HeldIncludes(ops[..k], i);
    }
  }

  /** Two different operations holding the same connection count it twice. */
  lemma {:induction false} HeldTwice(ops: seq<Op>, i: nat, j: nat)
    requires i < j < |ops| && ops[i].pc.Holding? && ops[j].pc.Holding? && ops[i].pc.conn == ops[j].pc.conn
    ensures Held(ops)[ops[i].pc.conn] >= 2
  {
    hide Held;
    var k, c := |ops| - 1, ops[i].pc.conn;
    HeldLast(ops, c);
    if j == k {
      HeldIncludes(ops[..k], i);
      assert Held(ops[..k])[c] >= HeldBy(ops[i])[c];
    } else {
      HeldTwice(ops[..k], i, j);
    }
  }

  lemma HeldLast(ops: seq<Op>, c: ConnId)
    requires ops != []
    ensures Held(ops)[c] == Held(ops[..|ops| - 1])[c] + HeldBy(ops[|ops| - 1])[c]
  {
    hide HeldBy;
  }

  /** Each of the pool's connections is in exactly one place. */
  predicate Conserved(cfg: Config, s: State) {
    |s.conns| == cfg.n && Places(s) == All(cfg.n)
  }

  lemma {:induction false} InitConserved(n: nat)
    ensures multiset(seq(n, i => i)) == All(n)
  {
    if n > 0 {
      InitConserved(n - 1);
      assert seq(n, i => i) == seq(n - 1, i => i) + [n - 1];
    }
  }

  lemma {:induction false} NoneHeld(ops: seq<Op>)
    requires forall i :: 0 <= i < |ops| ==> !ops[i].pc.Holding?
    ensures Held(ops) == multiset{}
  {
    if ops != [] {
      NoneHeld(ops[..|ops| - 1]);
    }
  }

  lemma HeadLeaves(q: seq<ConnId>)
    requires q != []
    ensures multiset(q) == multiset(q[1..]) + multiset{q[0]}
  {
    assert q == [q[0]] + q[1..];
  }

  /** Moving one connection between two places keeps the total. */
  lemma Moves(i: multiset<ConnId>, h: multiset<ConnId>, r: multiset<ConnId>, d: multiset<ConnId>,
              i': multiset<ConnId>, h': multiset<ConnId>, r': multiset<ConnId>, d': multiset<ConnId>, c: ConnId)
    requires
      || (i == i' + multiset{c} && h' == h + multiset{c} && r' == r && d' == d)
      || (i' == i + multiset{c} && h == h' + multiset{c} && r' == r && d' == d)
      || (i == i' + multiset{c} && r' == r + multiset{c} && h' == h && d' == d)
      || (i' == i + multiset{c} && r == r' + multiset{c} && h' == h && d' == d)
      || (i == i' + multiset{c} && d' == d + multiset{c} && h' == h && r' == r)
    ensures i' + h' + r' + d' == i + h + r + d
  {
  }

  /** An operation that takes, keeps or gives back a connection changes what is held accordingly. */
  lemma HeldStep(ops: seq<Op>, i: nat, op: Op)
    requires i < |ops|
    ensures HeldBy(op) == HeldBy(ops[i]) ==> Held(ops[i := op]) == Held(ops)
    ensures HeldBy(ops[i]) == multiset{} ==> Held(ops[i := op]) == Held(ops) + HeldBy(op)
    ensures HeldBy(op) == multiset{} ==> Held(ops) == Held(ops[i := op]) + HeldBy(ops[i])
  {
    hide Held, HeldBy;
    HeldUpdate(ops, i, op);
    var a, b, h, k := Held(ops[i := op]), Held(ops), HeldBy(ops[i]), HeldBy(op);
    if h == k {
      assert a == (a + h) - h;
      assert b == (b + h) - h;
    }
    if h == multiset{} {
      assert a + h == a;
    }
    if k == multiset{} {
      assert b + k == b;
    }
  }

  lemma CheckoutConserves(cfg: Config, s: State, i: nat)
    requires Conserved(cfg, s) && Enabled(cfg, s, Checkout(i))
    ensures Conserved(cfg, Next(cfg, s, Checkout(i)))
  {
    hide Held, All;
    var t := Next(cfg, s, Checkout(i));
    HeldStep(s.ops, i, t.ops[i]);
    HeadLeaves(s.idle);
    Moves(multiset(s.idle), Held(s.ops), InHand(s.reaper), multiset(s.drained),
          multiset(t.idle), Held(t.ops), InHand(t.reaper), multiset(t.drained), s.idle[0]);
  }

  lemma ReturnConserves(cfg: Config, s: State, i: nat, now: int)
    requires Conserved(cfg, s) && Enabled(cfg, s, GivesBack(i, now))
    ensures Conserved(cfg, Next(cfg, s, GivesBack(i, now)))
  {
    hide Held, All;
    var t := Next(cfg, s, GivesBack(i, now));
    HeldStep(s.ops, i, t.ops[i]);
    Moves(multiset(s.idle), Held(s.ops), InHand(s.reaper), multiset(s.drained),
          multiset(t.idle), Held(t.ops), InHand(t.reaper), multiset(t.drained), s.ops[i].pc.conn);
  }

  /** The events of an operation that move no connection. */
  predicate StaysPut(ev: Event) {
    ev.GiveUp? || ev.Acts? || ev.Judges? || ev.Wakes?
  }

  lemma OpConserves(cfg: Config, s: State, ev: Event)
    requires Conserved(cfg, s) && Enabled(cfg, s, ev) && StaysPut(ev)
    ensures Conserved(cfg, Next(cfg, s, ev))
  {
    hide Held, All, Places, HeldBy;
    var t := Next(cfg, s, ev);
    SameHolder(cfg, s, ev);
    HeldStep(s.ops, ev.op, t.ops[ev.op]);
    SamePlaces(s, t);
  }

  lemma SameHolder(cfg: Config, s: State, ev: Event)
    requires Enabled(cfg, s, ev) && StaysPut(ev)
    ensures
      var t := Next(cfg, s, ev);
      && Known(s, ev.op) && Known(t, ev.op) && t.ops == s.ops[ev.op := t.ops[ev.op]]
      && HeldBy(t.ops[ev.op]) == HeldBy(s.ops[ev.op])
      && t.idle == s.idle && t.reaper == s.reaper && t.drained == s.drained && |t.conns| == |s.conns|
  {
    hide RunStep, Expects, Final, Retryable;
  }

  lemma SamePlaces(s: State, t: State)
    requires t.idle == s.idle && t.reaper == s.reaper && t.drained == s.drained && Held(t.ops) == Held(s.ops)
    ensures Places(t) == Places(s)
  {
  }

  lemma TakeConserves(cfg: Config, s: State)
    requires Conserved(cfg, s) && Enabled(cfg, s, Takes)
    ensures Conserved(cfg, Next(cfg, s, Takes))
  {
    hide Held, All;
    var t := Next(cfg, s, Takes);
    if t.reaper.Grasping? {
      HeadLeaves(s.idle);
      Moves(multiset(s.idle), Held(s.ops), InHand(s.reaper), multiset(s.drained),
            multiset(t.idle), Held(t.ops), InHand(t.reaper), multiset(t.drained), s.idle[0]);
    }
  }

  lemma PutConserves(cfg: Config, s: State)
    requires Conserved(cfg, s) && Enabled(cfg, s, Puts)
    ensures Conserved(cfg, Next(cfg, s, Puts))
  {
    hide Held, All;
    var t := Next(cfg, s, Puts);
    Moves(multiset(s.idle), Held(s.ops), InHand(s.reaper), multiset(s.drained),
          multiset(t.idle), Held(t.ops), InHand(t.reaper), multiset(t.drained), s.reaper.conn);
  }

  lemma DrainConserves(cfg: Config, s: State)
    requires Conserved(cfg, s) && Enabled(cfg, s, Drains)
    ensures Conserved(cfg, Next(cfg, s, Drains))
  {
    hide Held, All;
    var t := Next(cfg, s, Drains);
    HeadLeaves(s.idle);
    Moves(multiset(s.idle), Held(s.ops), InHand(s.reaper), multiset(s.drained),
          multiset(t.idle), Held(t.ops), InHand(t.reaper), multiset(t.drained), s.idle[0]);
  }

  /** No step loses, duplicates or invents a connection. */
  lemma StepConserves(cfg: Config, s: State, ev: Event)
    requires Conserved(cfg, s) && Enabled(cfg, s, ev)
    ensures Conserved(cfg, Next(cfg, s, ev))
  {
    hide Held, All, Reaped, RunStep, Expects, Judged, Stops, Stale;
    match ev
    case Checkout(i) => CheckoutConserves(cfg, s, i);
    case GivesBack(i, now) => ReturnConserves(cfg, s, i, now);
    case Takes => TakeConserves(cfg, s);
    case Puts => PutConserves(cfg, s);
    case Drains => DrainConserves(cfg, s);
    case GiveUp(_) => OpConserves(cfg, s, ev);
    case Acts(_, _) => OpConserves(cfg, s, ev);
    case Judges(_, _) => OpConserves(cfg, s, ev);
    case Wakes(_, _) => OpConserves(cfg, s, ev);
    case Tick(_) =>
    case Reaps(_) =>
    case Exits =>
    case StopReaper =>
    case ReaperGone =>
    case Finishes =>
  }
}
