/** Exclusive ownership and the absence of shell leaks, over every interleaving. */
module ProtocolShells {
  import opened Common
  import opened PoolSteps
  import opened Protocol

  // ---------- Exclusive ownership ----------

  /** Conservation, counted for one connection. */
  lemma PlacesCount(cfg: Config, s: State, c: ConnId)
    requires Conserved(cfg, s)
    ensures multiset(s.idle)[c] + Held(s.ops)[c] + InHand(s.reaper)[c] + multiset(s.drained)[c]
         == if c < cfg.n then 1 else 0
  {
    AllCounts(cfg.n);
    assert Places(s)[c] == All(cfg.n)[c];
  }

  /** A connection held by a Run is the pool's, and nobody else's. */
  lemma HeldAlone(cfg: Config, s: State, i: nat)
    requires Conserved(cfg, s) && Known(s, i) && s.ops[i].pc.Holding?
    ensures
      var c := s.ops[i].pc.conn;
      && c < cfg.n && c !in s.idle && c !in s.drained && (s.reaper.Grasping? ==> s.reaper.conn != c)
      && forall j: nat :: j < |s.ops| && j != i && s.ops[j].pc.Holding? ==> s.ops[j].pc.conn != c
  {
    var c := s.ops[i].pc.conn;
    PlacesCount(cfg, s, c);
    HeldIncludes(s.ops, i);
    assert Held(s.ops)[c] >= HeldBy(s.ops[i])[c] == 1;
    forall j: nat | j < |s.ops| && j != i && s.ops[j].pc.Holding?
      ensures s.ops[j].pc.conn != c
    {
      if s.ops[j].pc.conn == c {
        HeldTwice(s.ops, if i < j then i else j, if i < j then j else i);
      }
    }
  }

  /** So is the one the reaper has in hand. */
  lemma InHandAlone(cfg: Config, s: State)
    requires Conserved(cfg, s) && s.reaper.Grasping?
    ensures
      var c := s.reaper.conn;
      && c < cfg.n && c !in s.idle && c !in s.drained
      && forall j: nat :: j < |s.ops| && s.ops[j].pc.Holding? ==> s.ops[j].pc.conn != c
  {
    PlacesCount(cfg, s, s.reaper.conn);
    forall j: nat | j < |s.ops| && s.ops[j].pc.Holding?
      ensures s.ops[j].pc.conn != s.reaper.conn
    {
      HeldAlone(cfg, s, j);
    }
  }

  /** And the next one to leave the idle channel. */
  lemma IdleAlone(cfg: Config, s: State)
    requires Conserved(cfg, s) && s.idle != []
    ensures
      var c := s.idle[0];
      && c < cfg.n && c !in s.idle[1..] && c !in s.drained
      && forall j: nat :: j < |s.ops| && s.ops[j].pc.Holding? ==> s.ops[j].pc.conn != c
  {
    PlacesCount(cfg, s, s.idle[0]);
    HeadLeaves(s.idle);
    forall j: nat | j < |s.ops| && s.ops[j].pc.Holding?
      ensures s.ops[j].pc.conn != s.idle[0]
    {
      HeldAlone(cfg, s, j);
    }
  }

  /** While anybody holds a connection there is room in the channel to send it back. */
  lemma SendNeverBlocks(cfg: Config, s: State)
    requires Conserved(cfg, s)
    requires s.reaper.Grasping? || exists i: nat :: i < |s.ops| && s.ops[i].pc.Holding?
    ensures |s.idle| < cfg.n
  {
    AllCounts(cfg.n);
    assert |Places(s)| == |s.idle| + |Held(s.ops)| + |InHand(s.reaper)| + |s.drained|;
    if !s.reaper.Grasping? {
      var i: nat :| i < |s.ops| && s.ops[i].pc.Holding?;
      HeldIncludes(s.ops, i);
      assert Held(s.ops) == HeldBy(s.ops[i]) + (Held(s.ops) - HeldBy(s.ops[i]));
    }
  }

  // ---------- Shells ----------

  /** An executor is live iff it belongs to exactly one connection, which is up and not
      drained. */
  ghost predicate ShellsOk(cfg: Config, s: State) {
    && |s.conns| == cfg.n
    && (forall e :: e in s.shells.live ==> e < s.shells.next)
    && (forall c :: 0 <= c < cfg.n ==> s.conns[c].exec < s.shells.next)
    && (forall c, d :: 0 <= c < d < cfg.n ==> s.conns[c].exec != s.conns[d].exec)
    && (forall c :: 0 <= c < cfg.n ==> (s.conns[c].exec in s.shells.live <==> s.conns[c].up && c !in s.drained))
    && (forall e :: e in s.shells.live ==> exists c :: 0 <= c < cfg.n && s.conns[c].exec == e)
  }

  /** A Run executes, or has just executed, only on a connection that is up. */
  predicate OpsUp(s: State) {
    forall i :: 0 <= i < |s.ops| && s.ops[i].pc.Holding? && NeedsShell(s.ops[i].pc.phase) ==>
      s.ops[i].pc.conn < |s.conns| && s.conns[s.ops[i].pc.conn].up
  }

  /** Whoever owns a connection may replace its executor without disturbing the others. */
  lemma RelinkKeeps(cfg: Config, s: State, c: ConnId, m: Link)
    requires ShellsOk(cfg, s) && c < cfg.n && c !in s.drained
    requires Synced(m) && OwnOnly(LinkOf(s, c), m)
    ensures ShellsOk(cfg, Relinked(s, c, m))
  {
    var t := Relinked(s, c, m);
    forall d | 0 <= d < cfg.n && d != c
      ensures t.conns[d].exec != t.conns[c].exec
      ensures t.conns[d].exec in t.shells.live <==> t.conns[d].up && d !in t.drained
    {
      assert s.conns[d].exec != s.conns[c].exec;
    }
    forall e | e in t.shells.live
      ensures exists d :: 0 <= d < cfg.n && t.conns[d].exec == e
    {
      if e == m.conn.exec {
        assert t.conns[c].exec == e;
      } else {
        var d :| 0 <= d < cfg.n && s.conns[d].exec == e;
        assert t.conns[d].exec == e;
      }
    }
  }

  lemma ActKeepsShells(cfg: Config, s: State, i: nat, rev: RunEvent)
    requires Conserved(cfg, s) && ShellsOk(cfg, s) && OpsUp(s) && Enabled(cfg, s, Acts(i, rev))
    ensures ShellsOk(cfg, Next(cfg, s, Acts(i, rev))) && OpsUp(Next(cfg, s, Acts(i, rev)))
  {
    hide RunStep, ShellsOk, Synced, OwnOnly, Conserved, Expects;
    var t := Next(cfg, s, Acts(i, rev));
    HeldAlone(cfg, s, i);
    var c := s.ops[i].pc.conn;
    SyncedOf(cfg, s, c);
    StepKeepsShells(cfg.cl, RunOf(s, i), rev);
    RelinkKeeps(cfg, s, c, RunStep(cfg.cl, RunOf(s, i), rev).link);
    SameShells(cfg, Relinked(s, c, RunStep(cfg.cl, RunOf(s, i), rev).link), t);
  }

  lemma SyncedOf(cfg: Config, s: State, c: ConnId)
    requires ShellsOk(cfg, s) && c < cfg.n && c !in s.drained
    ensures Exists(s, c) && Synced(LinkOf(s, c))
  {
  }

  lemma SameShells(cfg: Config, s: State, t: State)
    requires ShellsOk(cfg, s)
    requires t.conns == s.conns && t.shells == s.shells && t.drained == s.drained
    ensures ShellsOk(cfg, t)
  {
  }

  lemma ReapKeeps(cfg: Config, s: State, built: bool)
    requires Conserved(cfg, s) && ShellsOk(cfg, s) && OpsUp(s) && Enabled(cfg, s, Reaps(built))
    ensures ShellsOk(cfg, Next(cfg, s, Reaps(built))) && OpsUp(Next(cfg, s, Reaps(built)))
  {
    hide Reaped, ShellsOk, Synced, OwnOnly, Conserved;
    var t := Next(cfg, s, Reaps(built));
    InHandAlone(cfg, s);
    var r := s.reaper;
    SyncedOf(cfg, s, r.conn);
    ReapKeepsShells(LinkOf(s, r.conn), r.now, cfg.reapAfter, built);
    RelinkKeeps(cfg, s, r.conn, Reaped(LinkOf(s, r.conn), r.now, cfg.reapAfter, built));
    SameShells(cfg, Relinked(s, r.conn, Reaped(LinkOf(s, r.conn), r.now, cfg.reapAfter, built)), t);
  }

  lemma DrainKeeps(cfg: Config, s: State)
    requires Conserved(cfg, s) && ShellsOk(cfg, s) && OpsUp(s) && Enabled(cfg, s, Drains)
    ensures ShellsOk(cfg, Next(cfg, s, Drains)) && OpsUp(Next(cfg, s, Drains))
  {
    hide Conserved;
    var t := Next(cfg, s, Drains);
    IdleAlone(cfg, s);
    var c := s.idle[0];
    assert forall d :: d in t.drained <==> d == c || d in s.drained;
    forall d | 0 <= d < cfg.n
      ensures t.conns[d].exec in t.shells.live <==> t.conns[d].up && d !in t.drained
    {
    }
    forall e | e in t.shells.live
      ensures exists d :: 0 <= d < cfg.n && t.conns[d].exec == e
    {
      var d :| 0 <= d < cfg.n && s.conns[d].exec == e;
      assert t.conns[d].exec == e;
    }
  }

  lemma ReturnKeepsShells(cfg: Config, s: State, i: nat, now: int)
    requires ShellsOk(cfg, s) && OpsUp(s) && Enabled(cfg, s, GivesBack(i, now))
    ensures ShellsOk(cfg, Next(cfg, s, GivesBack(i, now))) && OpsUp(Next(cfg, s, GivesBack(i, now)))
  {
    var t := Next(cfg, s, GivesBack(i, now));
    assert forall c :: 0 <= c < cfg.n ==> t.conns[c].exec == s.conns[c].exec && t.conns[c].up == s.conns[c].up;
    forall e | e in t.shells.live
      ensures exists d :: 0 <= d < cfg.n && t.conns[d].exec == e
    {
      var d :| 0 <= d < cfg.n && s.conns[d].exec == e;
      assert t.conns[d].exec == e;
    }
  }

  /** No step of anybody leaks a shell or executes without one. */
  lemma StepKeepsAllShells(cfg: Config, s: State, ev: Event)
    requires Conserved(cfg, s) && ShellsOk(cfg, s) && OpsUp(s) && Enabled(cfg, s, ev)
    ensures ShellsOk(cfg, Next(cfg, s, ev)) && OpsUp(Next(cfg, s, ev))
  {
    hide RunStep, Reaped, ShellsOk, Synced, OwnOnly, Conserved, Expects, Stops, Drained;
    match ev
    case Acts(i, rev) => ActKeepsShells(cfg, s, i, rev);
    case Reaps(built) => ReapKeeps(cfg, s, built);
    case Drains => DrainKeeps(cfg, s);
    case GivesBack(i, now) => ReturnKeepsShells(cfg, s, i, now);
    case _ => SameShells(cfg, s, Next(cfg, s, ev));
  }
}
