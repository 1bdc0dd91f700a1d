/** A sweep of the reaper and a Close, undisturbed, as runs of the protocol: the one visits
    every idle connection once and takes down exactly the stale ones, the other receives
    every one and leaves no executor live. */
module ProtocolSweep {
  import opened Common
  import opened PoolSteps
  import opened Protocol
  import opened ProtocolShells
  import opened ProtocolOps
  import PT = ProtocolTheorems

  /** The state after the events from `s`, if each is enabled when it happens. */
  function Follow(cfg: Config, s: State, evs: seq<Event>): Option<State>
    decreases |evs|
  {
    if evs == [] then Some(s)
    else if !Enabled(cfg, s, evs[0]) then None
    else Follow(cfg, Next(cfg, s, evs[0]), evs[1..])
  }

  lemma {:induction false} FollowConcat(cfg: Config, s: State, a: seq<Event>, b: seq<Event>)
    requires Follow(cfg, s, a).Some?
    ensures Follow(cfg, s, a + b) == Follow(cfg, Follow(cfg, s, a).value, b)
    decreases |a|
  {
    hide Next, Enabled;
    if a == [] {
      assert a + b == b;
    } else {
      assert (a + b)[1..] == a[1..] + b;
      FollowConcat(cfg, Next(cfg, s, a[0]), a[1..], b);
    }
  }

  lemma FollowStep(cfg: Config, s: State, ev: Event, rest: seq<Event>)
    requires Enabled(cfg, s, ev)
    ensures Follow(cfg, s, [ev] + rest) == Follow(cfg, Next(cfg, s, ev), rest)
    ensures Follow(cfg, s, [ev]) == Some(Next(cfg, s, ev))
  {
    hide Next, Enabled;
    assert ([ev] + rest)[1..] == rest && [ev][1..] == [];
  }

  lemma {:induction false} FollowReachable(cfg: Config, s: State, evs: seq<Event>)
    requires Reachable(cfg, s) && Follow(cfg, s, evs).Some?
    ensures Reachable(cfg, Follow(cfg, s, evs).value)
    decreases |evs|
  {
    hide Next, Enabled, Reachable;
    if evs != [] {
      ReachableNext(cfg, s, evs[0]);
      FollowReachable(cfg, Next(cfg, s, evs[0]), evs[1..]);
    }
  }

  /** The reaper's turn with each idle connection; `built` says whose rebuild succeeds. */
  function Turns(built: seq<bool>): seq<Event> {
    if built == [] then [] else Turns(built[..|built| - 1]) + [Takes, Reaps(built[|built| - 1]), Puts]
  }

  /** A whole sweep: the tick, a turn for each, and the look that finds it is over. */
  function Sweep(now: int, built: seq<bool>): seq<Event> {
    [Tick(now)] + Turns(built) + [Takes]
  }

  /** Up, and unused for `reapAfter` or more. */
  predicate Due(c: Conn, now: int, reapAfter: int) {
    c.up && now - c.lastUsed >= reapAfter
  }

  /** The first `k` idle connections of `s` have had their turn: those due are down, and
      their executors are not live; everything else is as it was. */
  ghost predicate SweptTo(cfg: Config, s: State, now: int, k: nat, t: State) {
    && k <= |s.idle| && |t.conns| == |s.conns|
    && t.ops == s.ops && t.closer == s.closer && t.drained == s.drained
    && t.idle == s.idle[k..] + s.idle[..k]
    && (forall c :: 0 <= c < |s.conns| ==>
          if c in s.idle[..k] && Due(s.conns[c], now, cfg.reapAfter) then
            !t.conns[c].up && s.conns[c].exec !in t.shells.live
          else t.conns[c] == s.conns[c])
    && (forall e :: e in t.shells.live ==> e in s.shells.live)
    && (forall c :: 0 <= c < |s.conns| && !(c in s.idle[..k] && Due(s.conns[c], now, cfg.reapAfter)) ==>
          (s.conns[c].exec in s.shells.live ==> s.conns[c].exec in t.shells.live))
  }

  lemma IdleOnce(cfg: Config, s: State, k: nat)
    requires Conserved(cfg, s) && k < |s.idle|
    ensures s.idle[k] < cfg.n && s.idle[k] !in s.idle[..k]
  {
    PlacesCount(cfg, s, s.idle[k]);
    assert s.idle == s.idle[..k] + ([s.idle[k]] + s.idle[k + 1..]);
    assert multiset(s.idle)[s.idle[k]] == multiset(s.idle[..k])[s.idle[k]] + 1 + multiset(s.idle[k + 1..])[s.idle[k]];
  }

  /** One turn of the reaper: take the first, reap it if it is due, put it back last. */
  lemma OneTurn(cfg: Config, t: State, now: int, left: nat, built: bool)
    requires Reachable(cfg, t) && t.reaper == Sweeping(left, now) && left > 0 && t.idle != []
    ensures t.idle[0] < |t.conns|
    ensures Follow(cfg, t, [Takes, Reaps(built), Puts]).Some?
    ensures
      var c, u := t.idle[0], Follow(cfg, t, [Takes, Reaps(built), Puts]).value;
      var l := Reaped(Link(t.conns[c], t.shells), now, cfg.reapAfter, built);
      u == t.(reaper := Sweeping(left - 1, now), idle := t.idle[1..] + [c],
              conns := t.conns[c := l.conn], shells := l.shells)
  {
    hide Reachable, Reaped, Conserved, ShellsOk, OpsOk, OpsUp, Ordered, Follow;
    ReachableInv(cfg, t);
    IdleAlone(cfg, t);
    ConnCount(cfg, t);
    var t1 := Next(cfg, t, Takes);
    ReachableNext(cfg, t, Takes);
    var t2 := Next(cfg, t1, Reaps(built));
    ReachableNext(cfg, t1, Reaps(built));
    ReachableInv(cfg, t2);
    SendNeverBlocks(cfg, t2);
    FollowStep(cfg, t, Takes, [Reaps(built), Puts]);
    FollowStep(cfg, t1, Reaps(built), [Puts]);
    FollowStep(cfg, t2, Puts, []);
    assert [Takes, Reaps(built), Puts] == [Takes] + [Reaps(built), Puts];
    assert [Reaps(built), Puts] == [Reaps(built)] + [Puts];
  }

  lemma ConnCount(cfg: Config, s: State)
    requires Reachable(cfg, s)
    ensures |s.conns| == cfg.n
  {
    ReachableInv(cfg, s);
  }

  /** Reaping the next idle connection extends what has been swept by it. */
  lemma TurnExtends(cfg: Config, s: State, now: int, k: nat, t: State, u: State, built: bool)
    requires ShellsOk(cfg, s) && SweptTo(cfg, s, now, k, t) && k < |s.idle|
    requires s.idle[k] < cfg.n && s.idle[k] !in s.idle[..k] && t.shells.next !in t.shells.live
    requires
      var l := Reaped(Link(t.conns[s.idle[k]], t.shells), now, cfg.reapAfter, built);
      u == t.(reaper := u.reaper, idle := s.idle[k + 1..] + s.idle[..k + 1],
              conns := t.conns[s.idle[k] := l.conn], shells := l.shells)
    ensures SweptTo(cfg, s, now, k + 1, u)
  {
    var c := s.idle[k];
    assert forall x :: x in s.idle[..k + 1] <==> x in s.idle[..k] || x == c;
    assert t.conns[c] == s.conns[c];
  }

  lemma {:induction false} TurnsSweep(cfg: Config, s: State, s0: State, now: int, built: seq<bool>)
    requires Reachable(cfg, s) && |built| <= |s.idle|
    requires s0 == s.(reaper := Sweeping(|s.idle|, now)) && Reachable(cfg, s0)
    ensures Follow(cfg, s0, Turns(built)).Some?
    ensures
      var t := Follow(cfg, s0, Turns(built)).value;
      t.reaper == Sweeping(|s.idle| - |built|, now) && SweptTo(cfg, s, now, |built|, t)
    decreases |built|
  {
    hide Reachable, Enabled, Next, Reaped, Conserved, OpsOk, OpsUp, Ordered, ShellsOk, SweptTo;
    if built == [] {
      NothingSwept(cfg, s, s0, now);
    } else {
      var k := |built| - 1;
      TurnsSweep(cfg, s, s0, now, built[..k]);
      var t := Follow(cfg, s0, Turns(built[..k])).value;
      FollowReachable(cfg, s0, Turns(built[..k]));
      SweptIdle(cfg, s, now, k, t);
      OneTurn(cfg, t, now, |s.idle| - k, built[k]);
      FollowConcat(cfg, s0, Turns(built[..k]), [Takes, Reaps(built[k]), Puts]);
      ReachableInv(cfg, s);
      ReachableInv(cfg, t);
      IdleOnce(cfg, s, k);
      NextNotLive(cfg, t);
      TurnExtends(cfg, s, now, k, t, Follow(cfg, t, [Takes, Reaps(built[k]), Puts]).value, built[k]);
    }
  }

  lemma NextNotLive(cfg: Config, t: State)
    requires ShellsOk(cfg, t)
    ensures t.shells.next !in t.shells.live
  {
  }

  lemma NothingSwept(cfg: Config, s: State, s0: State, now: int)
    requires s0 == s.(reaper := Sweeping(|s.idle|, now))
    ensures SweptTo(cfg, s, now, 0, s0)
  {
    assert s.idle == s.idle[0..] + s.idle[..0];
  }

  lemma SweptIdle(cfg: Config, s: State, now: int, k: nat, t: State)
    requires SweptTo(cfg, s, now, k, t) && k < |s.idle|
    ensures t.idle != [] && t.idle[0] == s.idle[k] && t.idle[1..] + [s.idle[k]] == s.idle[k + 1..] + s.idle[..k + 1]
  {
  }

  /** From any reachable state in which the reaper rests: a tick, a turn for each idle
      connection and a last look end with the reaper resting and the channel in the same
      order.  Every idle connection that was up and unused for `reapAfter` is down, and
      its old executor is not live; every other connection is as it was, and nothing of
      theirs was closed. */
  lemma SweepIsAnInterleaving(cfg: Config, s: State, now: int, built: seq<bool>)
    requires Reachable(cfg, s) && s.reaper.Resting? && |built| == |s.idle|
    ensures Follow(cfg, s, Sweep(now, built)).Some?
    ensures
      var t := Follow(cfg, s, Sweep(now, built)).value;
      && Reachable(cfg, t)
      && t.reaper.Resting? && t.idle == s.idle && |t.conns| == |s.conns|
      && t.ops == s.ops && t.closer == s.closer && t.drained == s.drained
      && (forall c :: 0 <= c < |s.conns|
                      && c in s.idle && s.conns[c].up && now - s.conns[c].lastUsed >= cfg.reapAfter ==>
            !t.conns[c].up && s.conns[c].exec in s.shells.live && s.conns[c].exec !in t.shells.live)
      && (forall c :: 0 <= c < |s.conns|
                      && !(c in s.idle && s.conns[c].up && now - s.conns[c].lastUsed >= cfg.reapAfter) ==>
            t.conns[c] == s.conns[c] && (s.conns[c].exec in t.shells.live <==> s.conns[c].exec in s.shells.live))
  {
    hide Reachable, Turns, SweptTo, Follow;
    var s0 := s.(reaper := Sweeping(|s.idle|, now));
    ReachableNext(cfg, s, Tick(now));
    TurnsSweep(cfg, s, s0, now, built);
    var t := Follow(cfg, s0, Turns(built)).value;
    Starts(cfg, s, s0, now);
    FollowConcat(cfg, s, [Tick(now)], Turns(built));
    FollowConcat(cfg, s, [Tick(now)] + Turns(built), [Takes]);
    Ends(cfg, t, now);
    FollowReachable(cfg, s, Sweep(now, built));
    SweptAll(cfg, s, now, t);
  }

  lemma Starts(cfg: Config, s: State, s0: State, now: int)
    requires s.reaper.Resting? && s0 == s.(reaper := Sweeping(|s.idle|, now))
    ensures Follow(cfg, s, [Tick(now)]) == Some(s0)
  {
    assert [Tick(now)][1..] == [];
    assert Follow(cfg, s0, []) == Some(s0);
  }

  lemma Ends(cfg: Config, t: State, now: int)
    requires t.reaper == Sweeping(0, now)
    ensures Follow(cfg, t, [Takes]) == Some(t.(reaper := Resting))
  {
    assert [Takes][1..] == [];
    assert Follow(cfg, t.(reaper := Resting), []) == Some(t.(reaper := Resting));
  }

  lemma SweptAll(cfg: Config, s: State, now: int, t: State)
    requires Reachable(cfg, s) && SweptTo(cfg, s, now, |s.idle|, t)
    ensures t.idle == s.idle && |t.conns| == |s.conns|
    ensures t.ops == s.ops && t.closer == s.closer && t.drained == s.drained
    ensures forall c :: 0 <= c < |s.conns|
                        && c in s.idle && s.conns[c].up && now - s.conns[c].lastUsed >= cfg.reapAfter ==>
      !t.conns[c].up && s.conns[c].exec in s.shells.live && s.conns[c].exec !in t.shells.live
    ensures forall c :: 0 <= c < |s.conns|
                        && !(c in s.idle && s.conns[c].up && now - s.conns[c].lastUsed >= cfg.reapAfter) ==>
      t.conns[c] == s.conns[c] && (s.conns[c].exec in t.shells.live <==> s.conns[c].exec in s.shells.live)
  {
    hide Reachable;
    assert s.idle[..|s.idle|] == s.idle;
    ReachableInv(cfg, s);
    forall c: nat | c in s.idle
      ensures c !in s.drained
    {
      PlacesCount(cfg, s, c);
      assert multiset(s.idle)[c] >= 1;
    }
  }

  // ---------- A Close, undisturbed ----------

  function Drainings(k: nat): seq<Event> {
    if k == 0 then [] else Drainings(k - 1) + [Drains]
  }

  /** The reaper is stopped and gone, every connection received, and Close returns. */
  function Closing(n: nat): seq<Event> {
    [StopReaper, Exits, ReaperGone] + Drainings(n) + [Finishes]
  }

  lemma {:induction false} DrainsAll(cfg: Config, s: State, k: nat)
    requires Reachable(cfg, s) && s.closer.Draining? && s.drained == [] && |s.idle| == cfg.n && k <= cfg.n
    ensures Follow(cfg, s, Drainings(k)).Some?
    ensures
      var t := Follow(cfg, s, Drainings(k)).value;
      t == s.(idle := s.idle[k..], drained := s.idle[..k], shells := t.shells)
    decreases k
  {
    hide Reachable, Enabled, Next, Follow;
    if k == 0 {
      FollowNone(cfg, s);
    } else {
      DrainsAll(cfg, s, k - 1);
      var t := Follow(cfg, s, Drainings(k - 1)).value;
      FollowReachable(cfg, s, Drainings(k - 1));
      DrainsOne(cfg, t);
      FollowConcat(cfg, s, Drainings(k - 1), [Drains]);
      FollowStep(cfg, t, Drains, []);
      assert s.idle[k - 1..][1..] == s.idle[k..] && s.idle[..k - 1] + [s.idle[k - 1]] == s.idle[..k];
    }
  }

  lemma FollowNone(cfg: Config, s: State)
    ensures Follow(cfg, s, []) == Some(s)
  {
  }

  lemma DrainsOne(cfg: Config, t: State)
    requires Reachable(cfg, t) && t.closer.Draining? && |t.drained| < cfg.n && t.idle != []
    ensures Enabled(cfg, t, Drains)
    ensures
      var u := Next(cfg, t, Drains);
      u == t.(idle := t.idle[1..], drained := t.drained + [t.idle[0]], shells := u.shells)
  {
    hide Reachable, Conserved, ShellsOk, OpsOk, OpsUp, Ordered;
    ReachableInv(cfg, t);
    IdleAlone(cfg, t);
    ConnCount(cfg, t);
  }

  /** From any reachable state in which the reaper rests and every connection is idle:
      Close stops the reaper, receives each connection once, in the order of the channel,
      and returns with no executor live. */
  lemma CloseIsAnInterleaving(cfg: Config, s: State)
    requires Reachable(cfg, s) && s.closer.Open? && s.reaper.Resting? && |s.idle| == cfg.n
    ensures Follow(cfg, s, Closing(cfg.n)).Some?
    ensures
      var t := Follow(cfg, s, Closing(cfg.n)).value;
      && Reachable(cfg, t) && t.closer.Closed? && t.reaper.Exited?
      && t.idle == [] && t.drained == s.idle && t.conns == s.conns && t.ops == s.ops && t.shells.live == {}
  {
    hide Reachable, Follow, Drainings;
    var s0 := s.(closer := Draining, reaper := Exited);
    Stopped(cfg, s);
    FollowReachable(cfg, s, [StopReaper, Exits, ReaperGone]);
    NoneDrained(cfg, s);
    DrainsAll(cfg, s0, cfg.n);
    var t := Follow(cfg, s0, Drainings(cfg.n)).value;
    FollowStep(cfg, t, Finishes, []);
    FollowConcat(cfg, s, [StopReaper, Exits, ReaperGone], Drainings(cfg.n));
    FollowConcat(cfg, s, [StopReaper, Exits, ReaperGone] + Drainings(cfg.n), [Finishes]);
    FollowReachable(cfg, s, Closing(cfg.n));
    PT.NothingLiveAfterClose(cfg, Follow(cfg, s, Closing(cfg.n)).value);
    assert s.idle[..cfg.n] == s.idle;
  }

  lemma Stopped(cfg: Config, s: State)
    requires s.closer.Open? && s.reaper.Resting?
    ensures Follow(cfg, s, [StopReaper, Exits, ReaperGone]) == Some(s.(closer := Draining, reaper := Exited))
  {
    var s1 := s.(closer := Stopping);
    var s2 := s1.(reaper := Exited);
    FollowStep(cfg, s, StopReaper, [Exits, ReaperGone]);
    FollowStep(cfg, s1, Exits, [ReaperGone]);
    FollowStep(cfg, s2, ReaperGone, []);
    assert [StopReaper, Exits, ReaperGone] == [StopReaper] + [Exits, ReaperGone];
    assert [Exits, ReaperGone] == [Exits] + [ReaperGone];
  }

  lemma NoneDrained(cfg: Config, s: State)
    requires Reachable(cfg, s) && s.closer.Open?
    ensures s.drained == []
  {
    ReachableInv(cfg, s);
  }
}
