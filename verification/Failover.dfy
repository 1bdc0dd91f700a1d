/** The failover executor (transport/winrm/failover.go): probing an ordered list of
    endpoints, a shared memory of recent failures, and round-robin rotation.
    Clock readings and the outcomes of dialling are parameters. */
module Failover {
  import opened Common

  type Host = string

  datatype Endpoint = Endpoint(host: Host, timeout: int)

  datatype Strategy = StrategyFailover | StrategyRoundRobin

  /** What the attempt on one candidate comes to. */
  datatype Dial = BuildFails | ConnectFails | Connects

  // ---------- The negative cache ----------

  predicate CoolingDown(downUntil: map<Host, int>, host: Host, now: int) {
    host in downUntil && now < downUntil[host]
  }

  class NegativeCache {
    var downUntil: map<Host, int>
    const cooldown: int

    constructor (cooldown: int)
      ensures this.cooldown == cooldown && downUntil == map[]
    {
      this.cooldown := cooldown;
      downUntil := map[];
    }

    method IsDown(host: Host, now: int) returns (down: bool)
      ensures down == CoolingDown(downUntil, host, now)
    {
      down := host in downUntil && now < downUntil[host];
    }

    method MarkDown(host: Host, now: int)
      modifies this
      ensures downUntil == old(downUntil)[host := now + cooldown]
    {
      downUntil := downUntil[host := now + cooldown];
    }

    method Clear(host: Host)
      modifies this
      ensures downUntil == old(downUntil) - {host}
    {
      downUntil := downUntil - {host};
    }
  }

  // ---------- Rotation ----------

  const COUNTER_MODULUS := 0x1_0000_0000_0000_0000

  /** The rotation counter shared by every executor of a pool. */
  class Counter {
    var n: nat

    ghost predicate Valid()
      reads this
    {
      n < COUNTER_MODULUS
    }

    /** atomic.AddUint64(rr, 1). */
    method Add() returns (r: nat)
      requires Valid()
      modifies this
      ensures Valid() && r == n == (old(n) + 1) % COUNTER_MODULUS
    {
      n := (n + 1) % COUNTER_MODULUS;
      r := n;
    }
  }

  /** Subtracting one undoes adding one, across the wrap too. */
  lemma StepBack(c: nat)
    requires c < COUNTER_MODULUS
    ensures ((c + 1) % COUNTER_MODULUS + COUNTER_MODULUS - 1) % COUNTER_MODULUS == c
  {
    if c + 1 < COUNTER_MODULUS {
      assert (c + 1) % COUNTER_MODULUS == c + 1;
    }
  }

  function Rotated<T>(s: seq<T>, k: nat): seq<T>
    requires k <= |s|
  {
    s[k..] + s[..k]
  }

  lemma RotatedPermutes<T>(s: seq<T>, k: nat)
    requires k <= |s|
    ensures multiset(Rotated(s, k)) == multiset(s)
  {
    assert s == s[..k] + s[k..];
  }

  /** Where a connect that reads counter value `c` starts. */
  function StartIndex(c: nat, n: nat): nat
    requires n > 0
  {
    c % n
  }

  // ---------- Connect, specified ----------

  /** The endpoints not cooling down when looked at, in order. */
  function Awake(down: map<Host, int>, eps: seq<Endpoint>, now: nat -> int): seq<Endpoint> {
    if eps == [] then []
    else
      var k := |eps| - 1;
      Awake(down, eps[..k], now) + if CoolingDown(down, eps[k].host, now(k)) then [] else [eps[k]]
  }

  /** Those, or every endpoint if all of them are cooling down. */
  function Candidates(down: map<Host, int>, ordered: seq<Endpoint>, now: nat -> int): seq<Endpoint> {
    var up := Awake(down, ordered, now);
    if up == [] then ordered else up
  }

  /** The cache after the first `k` candidates have failed. */
  function CacheAfter(down: map<Host, int>, cands: seq<Endpoint>, k: nat, now: nat -> int, cooldown: int)
    : map<Host, int>
    requires k <= |cands|
  {
    if k == 0 then down
    else CacheAfter(down, cands, k - 1, now, cooldown)[cands[k - 1].host := now(k - 1) + cooldown]
  }

  /** The first `k` candidates fail to build or to connect. */
  predicate AllFail(dial: nat -> Dial, k: nat) {
    forall i :: 0 <= i < k ==> !dial(i).Connects?
  }

  datatype ConnectError = Single(host: Host) | Every(hosts: seq<Host>)

  /** The host's recorded time lies ahead. */
  predicate StillDown(down: map<Host, int>, host: Host, now: int) {
    host in down && now < down[host]
  }

  /** Attempt `i` connects and none before it does. */
  predicate FirstToConnect(dial: nat -> Dial, i: int) {
    0 <= i && dial(i).Connects? && forall j :: 0 <= j < i ==> !dial(j).Connects?
  }

  /** What an executor is bound to after a Connect that reached `connected`. */
  function Rebound(active: Option<Endpoint>, connected: Option<Endpoint>): Option<Endpoint> {
    if connected.Some? then connected else active
  }

  function Hosts(eps: seq<Endpoint>): (hs: seq<Host>)
    ensures |hs| == |eps| && forall i :: 0 <= i < |eps| ==> hs[i] == eps[i].host
  {
    seq(|eps|, i requires 0 <= i < |eps| => eps[i].host)
  }

  class FailoverExecutor {
    const endpoints: seq<Endpoint>
    const cache: NegativeCache?
    const strategy: Strategy
    const rr: Counter?
    var active: Option<Endpoint>

    constructor (endpoints: seq<Endpoint>, cache: NegativeCache?, strategy: Strategy, rr: Counter?)
      ensures this.endpoints == endpoints && this.cache == cache && this.strategy == strategy && this.rr == rr
      ensures active == None
    {
      this.endpoints, this.cache, this.strategy, this.rr, active := endpoints, cache, strategy, rr, None;
    }

    predicate Rotates() {
      strategy == StrategyRoundRobin && |endpoints| > 1 && rr != null
    }

    method OrderedEndpoints() returns (ordered: seq<Endpoint>)
      requires rr != null ==> rr.Valid()
      modifies if Rotates() then {rr} else {}
      ensures Rotates() ==> && rr.Valid() && rr.n == (old(rr.n) + 1) % COUNTER_MODULUS
                            && ordered == Rotated(endpoints, StartIndex(old(rr.n), |endpoints|))
      ensures Rotates() ==> |ordered| == |endpoints|
                            && forall i :: 0 <= i < |ordered| ==> ordered[i] == endpoints[(old(rr.n) + i) % |endpoints|]
      ensures !Rotates() ==> ordered == endpoints
      ensures Rotates() <==> strategy == StrategyRoundRobin && |endpoints| >= 2 && rr != null
    {
      var n := |endpoints|;
      if strategy != StrategyRoundRobin || n <= 1 || rr == null {
        return endpoints;
      }
      StepBack(rr.n);
      var next := rr.Add();
      // uint64 subtraction: the value the counter had before this connect.
      var start := ((next + COUNTER_MODULUS - 1) % COUNTER_MODULUS) % n;
      ordered := endpoints[start..] + endpoints[..start];
      ghost var c := old(rr.n);
      forall i | 0 <= i < n
        ensures ordered[i] == endpoints[(c + i) % n]
      {
        RotatedAt(endpoints, c, i);
      }
    }

    ghost function Memory(): map<Host, int>
      reads this, cache
    {
      if cache == null then map[] else cache.downUntil
    }

    /** The endpoints to probe: those not cooling down, or all if every one is. */
    method Select(ordered: seq<Endpoint>, filter: nat -> int) returns (cands: seq<Endpoint>)
      ensures cands == Candidates(Memory(), ordered, filter)
    {
      cands := [];
      for i := 0 to |ordered|
        invariant cands == Awake(Memory(), ordered[..i], filter)
      {
        var down := false;
        if cache != null {
          down := cache.IsDown(ordered[i].host, filter(i));
        }
        if !down {
          cands := cands + [ordered[i]];
        }
        assert ordered[..i + 1][..i] == ordered[..i];
      }
      assert ordered[..|ordered|] == ordered;
      if |cands| == 0 {
        cands := ordered;
      }
    }

    method Failed(host: Host, now: int)
      modifies cache
      ensures cache != null ==> cache.downUntil == old(Memory())[host := now + cache.cooldown]
    {
      if cache != null {
        cache.MarkDown(host, now);
      }
    }

    /** Probes the candidates in order and binds to the first that connects.
        `probe(i)` is the clock reading after the i-th attempt and `dial(i)` its
        outcome; `unclosed` collects the executors built here and not closed, and
        `failed` counts the candidates that failed. */
    method Probe(cands: seq<Endpoint>, probe: nat -> int, dial: nat -> Dial)
      returns (r: Result<(), ConnectError>, failed: nat, unclosed: seq<Endpoint>)
      modifies this, cache
      ensures failed <= |cands| && AllFail(dial, failed)
      ensures r.Ok? <==> failed < |cands|
      ensures r.Ok? ==> dial(failed).Connects? && active == Some(cands[failed]) && unclosed == [cands[failed]]
      ensures r.Err? ==> && active == old(active) && unclosed == []
                         && r.error == (if |cands| == 1 then Single(cands[0].host) else Every(Hosts(cands)))
      ensures cache != null ==>
                var marked := CacheAfter(old(Memory()), cands, failed, probe, cache.cooldown);
                cache.downUntil == if r.Ok? then marked - {cands[failed].host} else marked
    {
      hide CacheAfter, Hosts, AllFail;
      unclosed := [];
      var errs: seq<Host> := [];
      failed := 0;
      NoneTried(old(Memory()), cands, probe, if cache == null then 0 else cache.cooldown, dial);
      while failed < |cands|
        invariant failed <= |cands| && AllFail(dial, failed) && unclosed == [] && active == old(active)
        invariant errs == Hosts(cands[..failed])
        invariant cache != null ==>
                    cache.downUntil == CacheAfter(old(Memory()), cands, failed, probe, cache.cooldown)
      {
        var ep := cands[failed];
        OneTried(old(Memory()), cands, failed, probe, if cache == null then 0 else cache.cooldown, dial);
        if dial(failed).BuildFails? {
          Failed(ep.host, probe(failed));
          errs := errs + [ep.host];
          failed := failed + 1;
          continue;
        }
        unclosed := unclosed + [ep];
        if dial(failed).ConnectFails? {
          unclosed := unclosed[..|unclosed| - 1];
          Failed(ep.host, probe(failed));
          errs := errs + [ep.host];
          failed := failed + 1;
          continue;
        }
        if cache != null {
          cache.Clear(ep.host);
        }
        active := Some(ep);
        return Ok(()), failed, unclosed;
      }
      assert cands[..failed] == cands;
      if |cands| == 1 {
        FirstHost(cands);
        r := Err(Single(errs[0]));
      } else {
        r := Err(Every(errs));
      }
    }

    method Connect(filter: nat -> int, probe: nat -> int, dial: nat -> Dial)
      returns (r: Result<(), ConnectError>, ordered: seq<Endpoint>, cands: seq<Endpoint>,
               failed: nat, unclosed: seq<Endpoint>)
      requires rr != null ==> rr.Valid()
      modifies this, cache, if Rotates() then {rr} else {}
      ensures active == Rebound(old(active), if failed < |cands| then Some(cands[failed]) else None)
      ensures Rotates() ==> && rr.Valid() && rr.n == (old(rr.n) + 1) % COUNTER_MODULUS
                            && ordered == Rotated(endpoints, StartIndex(old(rr.n), |endpoints|))
      ensures !Rotates() ==> ordered == endpoints
      ensures cands == Candidates(old(Memory()), ordered, filter)
      ensures failed <= |cands| && AllFail(dial, failed)
      ensures r.Ok? <==> failed < |cands|
      ensures r.Ok? ==> dial(failed).Connects? && active == Some(cands[failed]) && unclosed == [cands[failed]]
      ensures r.Err? ==> && active == old(active) && unclosed == []
                         && r.error == (if |cands| == 1 then Single(cands[0].host) else Every(Hosts(cands)))
      ensures cache != null ==>
                var marked := CacheAfter(old(Memory()), cands, failed, probe, cache.cooldown);
                cache.downUntil == if r.Ok? then marked - {cands[failed].host} else marked
      ensures (forall i :: 0 <= i < |ordered| ==> !StillDown(old(Memory()), ordered[i].host, filter(i))) ==>
                (r.Ok? <==> exists i :: 0 <= i < |ordered| && dial(i).Connects?)
                && forall i :: FirstToConnect(dial, i) && i < |ordered| ==> active == Some(ordered[i])
    {
      hide CacheAfter, Candidates, StillDown;
      ghost var memory := Memory();
      ordered := OrderedEndpoints();
      cands := Select(ordered, filter);
      if forall i :: 0 <= i < |ordered| ==> !StillDown(memory, ordered[i].host, filter(i)) {
        AllAwake(memory, ordered, filter);
      }
      r, failed, unclosed := Probe(cands, probe, dial);
    }

    /** Execute delegates to the bound endpoint; None stands for the call on a nil one. */
    method Execute() returns (on: Option<Endpoint>)
      ensures on == active
    {
      on := active;
    }
  }

  // ---------- What a Connect amounts to ----------

  lemma NoneTried(down: map<Host, int>, cands: seq<Endpoint>, now: nat -> int, cooldown: int, dial: nat -> Dial)
    ensures CacheAfter(down, cands, 0, now, cooldown) == down && Hosts(cands[..0]) == [] && AllFail(dial, 0)
  {
  }

  lemma OneTried(down: map<Host, int>, cands: seq<Endpoint>, k: nat, now: nat -> int, cooldown: int, dial: nat -> Dial)
    requires k < |cands|
    ensures CacheAfter(down, cands, k + 1, now, cooldown)
         == CacheAfter(down, cands, k, now, cooldown)[cands[k].host := now(k) + cooldown]
    ensures Hosts(cands[..k + 1]) == Hosts(cands[..k]) + [cands[k].host]
    ensures AllFail(dial, k) && !dial(k).Connects? ==> AllFail(dial, k + 1)
  {
    assert cands[..k + 1] == cands[..k] + [cands[k]];
  }

  lemma FirstHost(cands: seq<Endpoint>)
    requires |cands| == 1
    ensures Hosts(cands) == [cands[0].host]
  {
  }

  lemma {:induction false} AwakeAre(down: map<Host, int>, eps: seq<Endpoint>, now: nat -> int)
    ensures forall ep <- Awake(down, eps, now) :: ep in eps
    ensures Awake(down, eps, now) == [] ==> forall i :: 0 <= i < |eps| ==> CoolingDown(down, eps[i].host, now(i))
    ensures forall i :: 0 <= i < |eps| && !CoolingDown(down, eps[i].host, now(i)) ==> eps[i] in Awake(down, eps, now)
  {
    if eps != [] {
      AwakeAre(down, eps[..|eps| - 1], now);
    }
  }

  /** A host marked at time `t` is down for exactly the cooldown from then on, and one never
      marked, or cleared, is not. */
  lemma CooldownWindow(down: map<Host, int>, host: Host, t: int, cooldown: int, now: int)
    ensures CoolingDown(down[host := t + cooldown], host, now) <==> now - t < cooldown
    ensures !CoolingDown(down - {host}, host, now)
    ensures CoolingDown(down, host, now) <==> StillDown(down, host, now)
  {
  }

  lemma AwakeStep(down: map<Host, int>, eps: seq<Endpoint>, now: nat -> int)
    ensures eps == [] ==> Awake(down, eps, now) == []
    ensures eps != [] ==>
      var k := |eps| - 1;
      Awake(down, eps, now)
      == if StillDown(down, eps[k].host, now(k)) then Awake(down, eps[..k], now)
         else Awake(down, eps[..k], now) + [eps[k]]
  {
  }

  /** `got` are endpoints of `eps` in its order, at the places `at`. */
  ghost predicate StandsAt(got: seq<Endpoint>, eps: seq<Endpoint>, at: seq<nat>) {
    && |at| == |got| && (forall k :: 0 <= k < |at| ==> at[k] < |eps| && got[k] == eps[at[k]])
    && (forall j, k :: 0 <= j < k < |at| ==> at[j] < at[k])
  }

  /** The places are those of the endpoints not cooling down. */
  ghost predicate AwakePlaces(down: map<Host, int>, eps: seq<Endpoint>, now: nat -> int, at: seq<nat>) {
    forall i :: 0 <= i < |eps| ==> (i in at <==> !StillDown(down, eps[i].host, now(i)))
  }

  lemma StandsLonger(got: seq<Endpoint>, eps: seq<Endpoint>, at: seq<nat>)
    requires eps != [] && StandsAt(got, eps[..|eps| - 1], at)
    ensures StandsAt(got, eps, at) && StandsAt(got + [eps[|eps| - 1]], eps, at + [|eps| - 1])
  {
  }

  lemma PlacesLonger(down: map<Host, int>, got: seq<Endpoint>, eps: seq<Endpoint>, now: nat -> int, at: seq<nat>)
    requires eps != [] && StandsAt(got, eps[..|eps| - 1], at) && AwakePlaces(down, eps[..|eps| - 1], now, at)
    ensures
      var k := |eps| - 1;
      AwakePlaces(down, eps, now, if StillDown(down, eps[k].host, now(k)) then at else at + [k])
  {
    hide StillDown;
    var k := |eps| - 1;
    assert k !in at;
    forall i | 0 <= i < k
      ensures i in at <==> !StillDown(down, eps[i].host, now(i))
    {
      assert eps[..k][i] == eps[i];
    }
  }

  /** Where the awake endpoints stand in the list: in its order, each once. */
  lemma {:induction false} AwakeAt(down: map<Host, int>, eps: seq<Endpoint>, now: nat -> int) returns (at: seq<nat>)
    ensures StandsAt(Awake(down, eps, now), eps, at) && AwakePlaces(down, eps, now, at)
  {
    AwakeStep(down, eps, now);
    if eps == [] {
      at := [];
    } else {
      hide Awake, StillDown, StandsAt, AwakePlaces;
      var k := |eps| - 1;
      var init := AwakeAt(down, eps[..k], now);
      StandsLonger(Awake(down, eps[..k], now), eps, init);
      PlacesLonger(down, Awake(down, eps[..k], now), eps, now, init);
      at := if StillDown(down, eps[k].host, now(k)) then init else init + [k];
    }
  }

  lemma FirstPlace(down: map<Host, int>, got: seq<Endpoint>, eps: seq<Endpoint>, now: nat -> int, at: seq<nat>, i: nat)
    requires StandsAt(got, eps, at) && AwakePlaces(down, eps, now, at)
    requires i < |eps| && !StillDown(down, eps[i].host, now(i))
    requires forall j :: 0 <= j < i ==> StillDown(down, eps[j].host, now(j))
    ensures at != [] && at[0] == i && got[0] == eps[i]
  {
    hide StillDown;
    assert i in at;
    var k :| 0 <= k < |at| && at[k] == i;
    assert at[0] in at && at[0] <= at[k];
  }

  /** The candidates keep the order of the list: they are its endpoints at increasing
      places, which are those not cooling down, or all if every one is.  The first of them
      is the first endpoint not cooling down, if there is one. */
  lemma CandidatesInOrder(down: map<Host, int>, ordered: seq<Endpoint>, now: nat -> int) returns (at: seq<nat>)
    ensures StandsAt(Candidates(down, ordered, now), ordered, at)
    ensures AwakePlaces(down, ordered, now, at)
         || (|at| == |ordered| && forall i :: 0 <= i < |ordered| ==> StillDown(down, ordered[i].host, now(i)))
    ensures forall i :: 0 <= i < |ordered| && !StillDown(down, ordered[i].host, now(i))
                        && (forall j :: 0 <= j < i ==> StillDown(down, ordered[j].host, now(j))) ==>
              Candidates(down, ordered, now) != [] && Candidates(down, ordered, now)[0] == ordered[i]
  {
    hide StillDown, Awake;
    at := AwakeAt(down, ordered, now);
    forall i: nat | i < |ordered| && !StillDown(down, ordered[i].host, now(i))
                    && forall j :: 0 <= j < i ==> StillDown(down, ordered[j].host, now(j))
      ensures Candidates(down, ordered, now) != [] && Candidates(down, ordered, now)[0] == ordered[i]
    {
      FirstPlace(down, Awake(down, ordered, now), ordered, now, at, i);
    }
    if Awake(down, ordered, now) == [] {
      forall i | 0 <= i < |ordered|
        ensures StillDown(down, ordered[i].host, now(i))
      {
        assert i !in at;
      }
      at := seq(|ordered|, i => i);
    }
  }

  /** With nothing cooling down the candidates are the list. */
  lemma AllAwake(down: map<Host, int>, ordered: seq<Endpoint>, now: nat -> int)
    requires forall i :: 0 <= i < |ordered| ==> !StillDown(down, ordered[i].host, now(i))
    ensures Candidates(down, ordered, now) == ordered
  {
    AwakeAll(down, ordered, now);
  }

  lemma {:induction false} AwakeAll(down: map<Host, int>, eps: seq<Endpoint>, now: nat -> int)
    requires forall i :: 0 <= i < |eps| ==> !StillDown(down, eps[i].host, now(i))
    ensures Awake(down, eps, now) == eps
  {
    hide Awake, StillDown;
    AwakeStep(down, eps, now);
    if eps != [] {
      var k := |eps| - 1;
      forall i | 0 <= i < k
        ensures !StillDown(down, eps[..k][i].host, now(i))
      {
        assert eps[..k][i] == eps[i];
      }
      AwakeAll(down, eps[..k], now);
      assert eps == eps[..k] + [eps[k]];
    }
  }

  /** However bad the recent past, a connect makes at least one real attempt; and it
      passes over an endpoint only while that endpoint cools down and another does not. */
  lemma AlwaysACandidate(down: map<Host, int>, ordered: seq<Endpoint>, now: nat -> int)
    ensures ordered != [] ==> Candidates(down, ordered, now) != []
    ensures forall i :: 0 <= i < |ordered| && ordered[i] !in Candidates(down, ordered, now) ==>
              && CoolingDown(down, ordered[i].host, now(i))
              && exists j :: 0 <= j < |ordered| && ordered[j] in Candidates(down, ordered, now)
  {
    AwakeAre(down, ordered, now);
    var up := Awake(down, ordered, now);
    if up != [] {
      assert up[0] in ordered;
    }
  }

  predicate DistinctHosts(eps: seq<Endpoint>) {
    forall i, j :: 0 <= i < j < |eps| ==> eps[i].host != eps[j].host
  }

  /** With distinct hosts every failed candidate is left cooling down from its own
      failure, the bound one is not, and no other host is touched. */
  lemma {:induction false} CacheRecords(down: map<Host, int>, cands: seq<Endpoint>, k: nat, now: nat -> int,
                                          cooldown: int)
    requires k <= |cands| && DistinctHosts(cands)
    ensures var after := CacheAfter(down, cands, k, now, cooldown);
            && (forall i :: 0 <= i < k ==> cands[i].host in after && after[cands[i].host] == now(i) + cooldown)
            && (forall i :: k <= i < |cands| ==>
                  (cands[i].host in after <==> cands[i].host in down))
            && (forall h :: (forall i :: 0 <= i < k ==> cands[i].host != h) ==>
                  (h in after <==> h in down) && (h in down ==> after[h] == down[h]))
  {
    hide CacheAfter;
    RecordedAll(down, cands, k, now, cooldown);
    forall i | k <= i < |cands|
      ensures Spared(cands, k, cands[i].host)
    {
    }
    forall h | forall i :: 0 <= i < k ==> cands[i].host != h
      ensures Spared(cands, k, h)
    {
    }
  }

  /** None of the first `k` candidates is on host `h`. */
  ghost predicate Spared(cands: seq<Endpoint>, k: nat, h: Host) {
    k <= |cands| && forall i :: 0 <= i < k ==> cands[i].host != h
  }

  /** `after` records the failures of the first `k` candidates, on top of `down`. */
  ghost predicate Recorded(down: map<Host, int>, cands: seq<Endpoint>, k: nat, now: nat -> int, cooldown: int,
                           after: map<Host, int>)
  {
    && k <= |cands|
    && (forall i :: 0 <= i < k ==> cands[i].host in after && after[cands[i].host] == now(i) + cooldown)
    && (forall h :: Spared(cands, k, h) ==> (h in after <==> h in down) && (h in down ==> after[h] == down[h]))
  }

  lemma RecordedNone(down: map<Host, int>, cands: seq<Endpoint>, now: nat -> int, cooldown: int)
    ensures Recorded(down, cands, 0, now, cooldown, CacheAfter(down, cands, 0, now, cooldown))
  {
  }

  lemma RecordedNext(down: map<Host, int>, cands: seq<Endpoint>, k: nat, now: nat -> int, cooldown: int,
                     after: map<Host, int>)
    requires k < |cands| && DistinctHosts(cands) && Recorded(down, cands, k, now, cooldown, after)
    ensures Recorded(down, cands, k + 1, now, cooldown, after[cands[k].host := now(k) + cooldown])
  {
    forall h | Spared(cands, k + 1, h)
      ensures Spared(cands, k, h) && cands[k].host != h
    {
    }
    hide Spared;
  }

  lemma {:induction false} RecordedAll(down: map<Host, int>, cands: seq<Endpoint>, k: nat, now: nat -> int,
                                         cooldown: int)
    requires k <= |cands| && DistinctHosts(cands)
    ensures Recorded(down, cands, k, now, cooldown, CacheAfter(down, cands, k, now, cooldown))
  {
    hide CacheAfter, Recorded, DistinctHosts;
    if k == 0 {
      RecordedNone(down, cands, now, cooldown);
    } else {
      RecordedAll(down, cands, k - 1, now, cooldown);
      CacheStep(down, cands, k, now, cooldown);
      RecordedNext(down, cands, k - 1, now, cooldown, CacheAfter(down, cands, k - 1, now, cooldown));
    }
  }

  lemma CacheStep(down: map<Host, int>, cands: seq<Endpoint>, k: nat, now: nat -> int, cooldown: int)
    requires 0 < k <= |cands|
    ensures CacheAfter(down, cands, k, now, cooldown)
         == CacheAfter(down, cands, k - 1, now, cooldown)[cands[k - 1].host := now(k - 1) + cooldown]
  {
  }

  lemma {:induction false} AwakeDistinct(down: map<Host, int>, eps: seq<Endpoint>, now: nat -> int)
    requires DistinctHosts(eps)
    ensures DistinctHosts(Awake(down, eps, now))
  {
    if eps != [] {
      var k := |eps| - 1;
      var init := Awake(down, eps[..k], now);
      AwakeDistinct(down, eps[..k], now);
      AwakeAre(down, eps[..k], now);
      forall i | 0 <= i < |init|
        ensures init[i].host != eps[k].host
      {
        assert init[i] in init && init[i] in eps[..k];
        var j :| 0 <= j < k && eps[..k][j] == init[i];
        assert eps[j] == init[i];
      }
    }
  }

  /** Distinct configured hosts stay distinct through rotation and filter. */
  lemma CandidatesDistinct(down: map<Host, int>, endpoints: seq<Endpoint>, start: nat, now: nat -> int)
    requires DistinctHosts(endpoints) && start <= |endpoints|
    ensures DistinctHosts(Rotated(endpoints, start))
    ensures DistinctHosts(Candidates(down, Rotated(endpoints, start), now))
  {
    var r, n := Rotated(endpoints, start), |endpoints|;
    forall i, j | 0 <= i < j < |r|
      ensures r[i].host != r[j].host
    {
      var i' := if i < n - start then i + start else i - (n - start);
      var j' := if j < n - start then j + start else j - (n - start);
      assert r[i] == endpoints[i'] && r[j] == endpoints[j'] && i' != j';
      assert i' < j' ==> endpoints[i'].host != endpoints[j'].host;
      assert j' < i' ==> endpoints[j'].host != endpoints[i'].host;
    }
    AwakeDistinct(down, r, now);
  }

  /** What a Connect that finds `k` failing candidates leaves in the cache, for any list of
      distinct endpoints, rotated by any start and filtered. */
  lemma ConnectRecords(down: map<Host, int>, endpoints: seq<Endpoint>, start: nat, filter: nat -> int,
                       k: nat, probe: nat -> int, cooldown: int)
    requires DistinctHosts(endpoints) && start <= |endpoints|
    requires k <= |Candidates(down, Rotated(endpoints, start), filter)|
    ensures
      var cands := Candidates(down, Rotated(endpoints, start), filter);
      var after := CacheAfter(down, cands, k, probe, cooldown);
      && (forall i :: 0 <= i < k ==> cands[i].host in after && after[cands[i].host] == probe(i) + cooldown)
      && (forall h :: (forall i :: 0 <= i < k ==> cands[i].host != h) ==>
            (h in after <==> h in down) && (h in down ==> after[h] == down[h]))
      && (k < |cands| ==>
            forall i :: 0 <= i < k ==>
              cands[i].host in after - {cands[k].host} && cands[k].host !in after - {cands[k].host})
  {
    CandidatesDistinct(down, endpoints, start, filter);
    CacheRecords(down, Candidates(down, Rotated(endpoints, start), filter), k, probe, cooldown);
    hide Candidates, CacheAfter, Rotated;
  }

  // ---------- The time a candidate gets ----------

  const MIN_CONNECT_BUDGET := 5_000_000_000
  const MAX_CONNECT_BUDGET := 15_000_000_000

  /** connectBudget, in nanoseconds.  Below the floor it does not matter which way the
      division rounds. */
  function ConnectBudget(total: int, n: int): int {
    if n <= 1 then total
    else
      var b := total / n;
      if b > MAX_CONNECT_BUDGET then MAX_CONNECT_BUDGET else if b < MIN_CONNECT_BUDGET then MIN_CONNECT_BUDGET else b
  }

  /** Several candidates each get a usable window, none can starve the rest, and their
      windows together overrun the operation's time exactly when it is too short for
      `n` of the least. */
  lemma BudgetShares(total: int, n: int)
    requires n >= 2
    ensures MIN_CONNECT_BUDGET <= ConnectBudget(total, n) <= MAX_CONNECT_BUDGET
    ensures n * ConnectBudget(total, n) > total <==> total < n * MIN_CONNECT_BUDGET
  {
    var q, r := total / n, total % n;
    assert total == n * q + r && 0 <= r < n;
    if q < MIN_CONNECT_BUDGET {
      Distributes(n, q + 1, MIN_CONNECT_BUDGET - q - 1);
      AtLeastNothing(n, MIN_CONNECT_BUDGET - q - 1);
      Distributes(n, q, 1);
    } else {
      var b := ConnectBudget(total, n);
      Distributes(n, b, q - b);
      AtLeastNothing(n, q - b);
      Distributes(n, MIN_CONNECT_BUDGET, q - MIN_CONNECT_BUDGET);
      AtLeastNothing(n, q - MIN_CONNECT_BUDGET);
    }
  }

  /** One candidate has all the time there is; several have equal shares, but none more
      than fifteen seconds or less than five. */
  lemma BudgetIs(total: int, n: int)
    ensures n <= 1 ==> ConnectBudget(total, n) == total
    ensures n >= 2 && 5_000_000_000 <= total / n <= 15_000_000_000 ==> ConnectBudget(total, n) == total / n
    ensures n >= 2 && total / n > 15_000_000_000 ==> ConnectBudget(total, n) == 15_000_000_000
    ensures n >= 2 && total / n < 5_000_000_000 ==> ConnectBudget(total, n) == 5_000_000_000
  {
  }

  lemma AtLeastNothing(n: nat, k: nat)
    ensures n * k >= 0
  {
  }

  // ---------- Round-robin fairness ----------

  lemma Distributes(n: int, a: int, b: int)
    ensures n * (a + b) == n * a + n * b
  {
  }

  lemma AtLeastOnce(n: nat, k: nat)
    requires k >= 1
    ensures n * k >= n
  {
    Distributes(n, 1, k - 1);
    assert n * (k - 1) >= 0;
  }

  lemma QuotientUnique(n: nat, p: nat, r: nat, q: nat, t: nat)
    requires n * p + r == n * q + t && r < n && t < n
    ensures p == q && r == t
  {
    if p < q {
      Distributes(n, p, q - p);
      AtLeastOnce(n, q - p);
    } else if q < p {
      Distributes(n, q, p - q);
      AtLeastOnce(n, p - q);
    }
  }

  lemma ModIs(x: nat, n: nat, q: nat, r: nat)
    requires x == n * q + r && r < n
    ensures x % n == r
  {
    QuotientUnique(n, x / n, x % n, q, r);
  }

  lemma ModClash(a: nat, b: nat, n: nat)
    requires a < b < a + n
    ensures a % n != b % n
  {
    if a % n == b % n {
      QuotientUnique(n, b / n, 0, a / n, b - a);
      assert false;
    }
  }

  /** Behind its start a rotation goes on to the end and then from the beginning. */
  lemma RotatedAt(s: seq<Endpoint>, c: nat, i: nat)
    requires i < |s|
    ensures Rotated(s, c % |s|)[i] == s[(c + i) % |s|]
  {
    var n := |s|;
    var k := c % n;
    assert c + i == n * (c / n) + (k + i);
    if k + i < n {
      ModIs(c + i, n, c / n, k + i);
    } else {
      Distributes(n, c / n, 1);
      ModIs(c + i, n, c / n + 1, k + i - n);
    }
  }

  lemma ModAddOnce(y: nat, n: nat)
    requires n > 0
    ensures (y + n) % n == y % n
  {
    Distributes(n, y / n, 1);
    ModIs(y + n, n, y / n + 1, y % n);
  }

  lemma ModReduces(x: nat, m: nat, n: nat)
    requires n > 0 && m > 0 && m % n == 0
    ensures (x % m) % n == x % n
  {
    ModOfMultiple(x, m, n, m / n, x / m, x % m);
  }

  lemma ModOfMultiple(x: nat, m: nat, n: nat, p: nat, q: nat, s: nat)
    requires n > 0 && m == n * p && x == m * q + s
    ensures x % n == s % n
  {
    Associates(n, p, q);
    ModShift(s, n, p * q);
  }

  lemma Associates(n: int, p: int, q: int)
    ensures (n * p) * q == n * (p * q)
  {
  }

  lemma {:induction false} ModShift(x: nat, n: nat, q: nat)
    requires n > 0
    ensures (n * q + x) % n == x % n
    decreases q
  {
    if q > 0 {
      ModShift(x, n, q - 1);
      Distributes(n, q - 1, 1);
      ModAddOnce(n * (q - 1) + x, n);
    } else {
      assert n * q == 0;
    }
  }

  /** The index at which the `k`-th connect after counter value `c` starts, with a
      counter that wraps at `m`. */
  function NthStart(c: nat, k: nat, n: nat, m: nat): nat
    requires n > 0 && m > 0
  {
    StartIndex((c + k) % m, n)
  }

  lemma NthBeforeWrap(c: nat, k: nat, n: nat, m: nat)
    requires n > 0 && c + k < m
    ensures NthStart(c, k, n, m) == (c + k) % n
  {
    ModIs(c + k, m, 0, c + k);
  }

  lemma NthAfterWrap(c: nat, k: nat, n: nat, m: nat)
    requires n > 0 && m <= c + k < m + n && c + k < m + m
    ensures NthStart(c, k, n, m) == c + k - m
  {
    ModIs(c + k, m, 1, c + k - m);
    ModIs(c + k - m, n, 0, c + k - m);
  }

  /** Two of `n` connects that cross the wrap start at the same index. */
  lemma WrapClash(c: nat, n: nat, m: nat) returns (i: nat, j: nat)
    requires 0 < n <= m && c < m < c + n && m % n != 0
    ensures i < j < n && NthStart(c, i, n, m) == NthStart(c, j, n, m)
  {
    var r, wrap := m % n, m - c;
    // The start u before the wrap equals the start t after it.
    var t := if r <= n - wrap then r - 1 else n - wrap - 1;
    var u := r - t;
    i, j := wrap - u, wrap + t;
    NthBeforeWrap(c, i, n, m);
    ModIs(m - u, n, m / n, t);
    NthAfterWrap(c, j, n, m);
  }

  /** Any `n` consecutive connects over `n` endpoints start at `n` different ones
      exactly when they do not cross the wrap of the counter, or `n` divides it. */
  lemma FairIff(c: nat, n: nat, m: nat)
    requires 0 < n <= m && c < m
    ensures (forall i, j :: 0 <= i < j < n ==> NthStart(c, i, n, m) != NthStart(c, j, n, m))
       <==> c + n <= m || m % n == 0
  {
    if c + n <= m {
      forall i, j | 0 <= i < j < n ensures NthStart(c, i, n, m) != NthStart(c, j, n, m) {
        NthBeforeWrap(c, i, n, m);
        NthBeforeWrap(c, j, n, m);
        ModClash(c + i, c + j, n);
      }
    } else if m % n == 0 {
      forall i, j | 0 <= i < j < n ensures NthStart(c, i, n, m) != NthStart(c, j, n, m) {
        ModReduces(c + i, m, n);
        ModReduces(c + j, m, n);
        ModClash(c + i, c + j, n);
      }
    } else {
      var i, j := WrapClash(c, n, m);
    }
  }

  /** The counter after `k` connects; OrderedEndpoints starts the next one at
      `NthStart(c, k, n, COUNTER_MODULUS)`. */
  lemma {:induction false} CounterAfter(c: nat, k: nat)
    ensures ((c + k) % COUNTER_MODULUS + 1) % COUNTER_MODULUS == (c + (k + 1)) % COUNTER_MODULUS
  {
    var m := COUNTER_MODULUS;
    ModIs(c + k, m, (c + k) / m, (c + k) % m);
    if (c + k) % m + 1 < m {
      ModIs(c + (k + 1), m, (c + k) / m, (c + k) % m + 1);
    } else {
      ModIs(c + (k + 1), m, (c + k) / m + 1, 0);
    }
  }

  /** The counter values that successive Connects over a shared counter read. */
  predicate Successive(counters: seq<nat>) {
    && (counters != [] ==> counters[0] < COUNTER_MODULUS)
    && (forall k :: 0 <= k < |counters| - 1 ==> counters[k + 1] == (counters[k] + 1) % COUNTER_MODULUS)
  }

  lemma {:induction false} SuccessiveAt(counters: seq<nat>, k: nat)
    requires Successive(counters) && k < |counters|
    ensures counters[k] == (counters[0] + k) % COUNTER_MODULUS
  {
    if k > 0 {
      SuccessiveAt(counters, k - 1);
      CounterAfter(counters[0], k - 1);
    } else {
      ModIs(counters[0], COUNTER_MODULUS, 0, counters[0]);
    }
  }

  /** With the counter at its last value, a round over three endpoints tries one of them
      first twice and another never. */
  lemma UnfairRound(a: Endpoint, b: Endpoint, c: Endpoint)
    ensures Successive([COUNTER_MODULUS - 1, 0, 1])
    ensures Rotated([a, b, c], StartIndex(COUNTER_MODULUS - 1, 3))[0] == Rotated([a, b, c], StartIndex(0, 3))[0] == a
    ensures Rotated([a, b, c], StartIndex(1, 3))[0] == b
  {
    ModIs(COUNTER_MODULUS - 1, 3, (COUNTER_MODULUS - 1) / 3, 0);
    ModIs(0, 3, 0, 0);
    ModIs(1, 3, 0, 1);
  }

  /** A round of as many Connects as there are distinct endpoints tries a different one
      first each time, exactly when it does not cross the wrap of the counter or the
      number of endpoints divides it. */
  lemma RoundFairIff(endpoints: seq<Endpoint>, counters: seq<nat>)
    requires DistinctHosts(endpoints) && 0 < |endpoints| == |counters| <= COUNTER_MODULUS && Successive(counters)
    ensures (forall i, j :: 0 <= i < j < |counters| ==>
               Rotated(endpoints, StartIndex(counters[i], |endpoints|))[0]
               != Rotated(endpoints, StartIndex(counters[j], |endpoints|))[0])
       <==> counters[0] + |endpoints| <= COUNTER_MODULUS || COUNTER_MODULUS % |endpoints| == 0
  {
    var n, c := |endpoints|, counters[0];
    FairIff(c, n, COUNTER_MODULUS);
    forall k: nat | k < n
      ensures StartIndex(counters[k], n) == NthStart(c, k, n, COUNTER_MODULUS) < n
      ensures Rotated(endpoints, StartIndex(counters[k], n))[0] == endpoints[NthStart(c, k, n, COUNTER_MODULUS)]
    {
      SuccessiveAt(counters, k);
    }
    hide Rotated, StartIndex, NthStart, Successive;
    forall i, j | 0 <= i < n && 0 <= j < n && i != j
      ensures endpoints[i] != endpoints[j]
    {
      assert i < j ==> endpoints[i].host != endpoints[j].host;
      assert j < i ==> endpoints[j].host != endpoints[i].host;
    }
    assert forall i, j :: 0 <= i < j < n ==>
      (Rotated(endpoints, StartIndex(counters[i], n))[0] != Rotated(endpoints, StartIndex(counters[j], n))[0]
       <==> NthStart(c, i, n, COUNTER_MODULUS) != NthStart(c, j, n, COUNTER_MODULUS));
  }
}
