/** Group membership in the fake directory (transport/fake/directory.go): adding,
    removing, and the recursive read over a membership graph that may be cyclic. */
module Members {
  import opened Common
  import opened Strings

  type Guid = string

  datatype DirectoryObject = DirectoryObject(guid: Guid, class_: string, deleted: bool, members: seq<Guid>)

  type Objects = map<Guid, DirectoryObject>

  predicate Live(objects: Objects, g: Guid) {
    g in objects && !objects[g].deleted
  }

  predicate LiveGroup(objects: Objects, g: Guid) {
    Live(objects, g) && objects[g].class_ == "group"
  }

  /** What `f` leads on to: its members, if it is a live group. */
  function Onward(objects: Objects, f: Guid): set<Guid> {
    if LiveGroup(objects, f) then Elements(objects[f].members) else {}
  }

  /** The identities within `n` further steps of the direct members of `start`. */
  function Within(objects: Objects, start: DirectoryObject, n: nat): set<Guid> {
    if n == 0 then Elements(start.members)
    else
      var nearer := Within(objects, start, n - 1);
      nearer + (set f, g | f in nearer && g in Onward(objects, f) :: g)
  }

  ghost predicate Reaches(objects: Objects, start: DirectoryObject, g: Guid) {
    exists n: nat :: g in Within(objects, start, n)
  }

  /** The leaf security principals of a group: live, not themselves groups, and
      reached through live groups. */
  ghost predicate IsLeaf(objects: Objects, start: DirectoryObject, g: Guid) {
    Reaches(objects, start, g) && Live(objects, g) && !LiveGroup(objects, g)
  }

  lemma ReachesOnward(objects: Objects, start: DirectoryObject, f: Guid, g: Guid)
    requires Reaches(objects, start, f) && g in Onward(objects, f)
    ensures Reaches(objects, start, g)
  {
    var n: nat :| f in Within(objects, start, n);
    assert g in Within(objects, start, n + 1);
  }

  lemma {:induction false} ClosedHoldsAll(objects: Objects, start: DirectoryObject, seen: set<Guid>, n: nat)
    requires Elements(start.members) <= seen && forall f <- seen :: Onward(objects, f) <= seen
    ensures Within(objects, start, n) <= seen
  {
    if n > 0 {
      ClosedHoldsAll(objects, start, seen, n - 1);
    }
  }

  /** `p` leads from a direct member of `start` through the members of undeleted groups. */
  ghost predicate Chain(objects: Objects, start: DirectoryObject, p: seq<Guid>) {
    && p != [] && p[0] in start.members
    && forall i :: 0 <= i < |p| - 1 ==>
         && p[i] in objects && !objects[p[i]].deleted && objects[p[i]].class_ == "group"
         && p[i + 1] in objects[p[i]].members
  }

  ghost predicate ChainTo(objects: Objects, start: DirectoryObject, g: Guid, p: seq<Guid>) {
    Chain(objects, start, p) && p[|p| - 1] == g
  }

  lemma {:induction false} ChainOf(objects: Objects, start: DirectoryObject, g: Guid, n: nat) returns (p: seq<Guid>)
    requires g in Within(objects, start, n)
    ensures ChainTo(objects, start, g, p)
    decreases n
  {
    if n == 0 {
      p := [g];
    } else if g in Within(objects, start, n - 1) {
      p := ChainOf(objects, start, g, n - 1);
    } else {
      hide Within;
      var f := Before(objects, start, g, n);
      var q := ChainOf(objects, start, f, n - 1);
      p := Longer(objects, start, f, g, q);
    }
  }

  lemma Longer(objects: Objects, start: DirectoryObject, f: Guid, g: Guid, q: seq<Guid>) returns (p: seq<Guid>)
    requires ChainTo(objects, start, f, q) && g in Onward(objects, f)
    ensures ChainTo(objects, start, g, p)
  {
    p := q + [g];
  }

  lemma Before(objects: Objects, start: DirectoryObject, g: Guid, n: nat) returns (f: Guid)
    requires n > 0 && g in Within(objects, start, n) && g !in Within(objects, start, n - 1)
    ensures f in Within(objects, start, n - 1) && g in Onward(objects, f)
  {
    hide Onward;
    f :| f in Within(objects, start, n - 1) && g in Onward(objects, f);
  }

  lemma {:induction false} ChainReaches(objects: Objects, start: DirectoryObject, g: Guid, p: seq<Guid>)
    requires ChainTo(objects, start, g, p)
    ensures Reaches(objects, start, g)
    decreases |p|
  {
    hide Within, Reaches;
    var k := |p| - 1;
    if k == 0 {
      DirectMember(objects, start, g);
    } else {
      var q := p[..k];
      assert Chain(objects, start, q);
      ChainReaches(objects, start, p[k - 1], q);
      assert p[k] in objects[p[k - 1]].members;
      ReachesOnward(objects, start, p[k - 1], g);
    }
  }

  /** A leaf, said of the objects themselves: a chain of memberships through undeleted
      groups leads to an undeleted object that is no group. */
  lemma LeafIs(objects: Objects, start: DirectoryObject, g: Guid)
    ensures IsLeaf(objects, start, g) <==>
      && g in objects && !objects[g].deleted && objects[g].class_ != "group"
      && exists p :: ChainTo(objects, start, g, p)
  {
    hide Within, ChainTo;
    if Reaches(objects, start, g) {
      var n: nat :| g in Within(objects, start, n);
      var p := ChainOf(objects, start, g, n);
    }
    if p :| ChainTo(objects, start, g, p) {
      ChainReaches(objects, start, g, p);
    }
  }

  // ---------- The walk ----------

  /** The state the recursive walk closes over. */
  class Walk {
    const objects: Objects
    ghost const start: DirectoryObject
    var seen: set<Guid>
    var leaves: map<Guid, DirectoryObject>

    constructor (objects: Objects, ghost start: DirectoryObject)
      ensures this.objects == objects && this.start == start && seen == {} && leaves == map[]
    {
      this.objects, this.start, seen, leaves := objects, start, {}, map[];
    }

    ghost predicate Valid()
      reads this
    {
      && (forall g <- objects :: objects[g].guid == g)
      && (forall g <- seen :: Reaches(objects, start, g))
      && leaves == map g | g in seen && Live(objects, g) && !LiveGroup(objects, g) :: objects[g]
    }

    method Visit(o: DirectoryObject)
      requires Valid() && forall g <- o.members :: Reaches(objects, start, g)
      modifies this
      ensures Valid() && old(seen) <= seen && Elements(o.members) <= seen
      ensures forall f <- seen - old(seen) :: Onward(objects, f) <= seen
      decreases objects.Keys - seen
    {
      hide Within, Reaches;
      for k := 0 to |o.members|
        invariant Valid() && old(seen) <= seen && forall g <- o.members[..k] :: g in seen
        invariant forall f <- seen - old(seen) :: Onward(objects, f) <= seen
      {
        var guid := o.members[k];
        assert o.members[..k + 1] == o.members[..k] + [guid];
        if guid in seen {
          continue;
        }
        ghost var was := seen;
        seen := seen + {guid};
        if guid !in objects || objects[guid].deleted {
          continue;
        }
        var mo := objects[guid];
        if mo.class_ == "group" {
          forall g | g in mo.members ensures Reaches(objects, start, g) {
            ReachesOnward(objects, start, guid, g);
          }
          Visit(mo);
          continue;
        }
        leaves := leaves[mo.guid := mo];
      }
      assert o.members[..|o.members|] == o.members;
    }
  }

  /** handleMembersReadRecursive, for the object the identity resolves to. */
  method MembersReadRecursive(objects: Objects, start: DirectoryObject) returns (members: seq<DirectoryObject>)
    requires forall g <- objects :: objects[g].guid == g
    ensures StrictlySorted(seq(|members|, i requires 0 <= i < |members| => members[i].guid))
    ensures forall i :: 0 <= i < |members| ==> members[i].guid in objects && members[i] == objects[members[i].guid]
    ensures forall g :: IsLeaf(objects, start, g) <==> exists i :: 0 <= i < |members| && members[i].guid == g
  {
    hide Within;
    var w := new Walk(objects, start);
    forall g | g in start.members ensures Reaches(objects, start, g) {
      DirectMember(objects, start, g);
    }
    w.Visit(start);
    forall g | Reaches(objects, start, g) ensures g in w.seen {
      var n: nat :| g in Within(objects, start, n);
      ClosedHoldsAll(objects, start, w.seen, n);
    }
    var guids := SortedKeys(w.leaves.Keys);
    members := [];
    for i := 0 to |guids|
      invariant |members| == i && forall j :: 0 <= j < i ==> guids[j] in w.leaves && members[j] == w.leaves[guids[j]]
    {
      assert guids[i] in Elements(guids);
      members := members + [w.leaves[guids[i]]];
    }
    forall g ensures IsLeaf(objects, start, g) <==> exists i :: 0 <= i < |members| && members[i].guid == g {
      assert IsLeaf(objects, start, g) <==> g in w.leaves;
      assert g in w.leaves <==> g in Elements(guids);
      if g in Elements(guids) {
        var i :| 0 <= i < |guids| && guids[i] == g;
        assert members[i].guid == g;
      }
    }
  }

  lemma DirectMember(objects: Objects, start: DirectoryObject, g: Guid)
    requires g in start.members
    ensures Reaches(objects, start, g)
  {
    assert g in Within(objects, start, 0);
  }

  // ---------- Adding and removing ----------

  /** How an identity (GUID, DN, account name or SID) resolves is a parameter; only
      live objects are found. */
  type Finder = string -> Option<Guid>

  function Found(find: Finder, ids: seq<string>): set<Guid> {
    set m | m in ids && find(m).Some? :: find(m).value
  }

  predicate AllFound(find: Finder, ids: seq<string>) {
    forall m <- ids :: find(m).Some?
  }

  class Directory {
    var objects: Objects

    ghost predicate Resolves(find: Finder)
      reads this
    {
      && (forall g <- objects :: objects[g].guid == g)
      && (forall id :: find(id).Some? ==> Live(objects, find(id).value))
    }

    /** Nothing but the members of `g` has changed, and they now are `xs`, listed in order. */
    twostate predicate MembersBecome(g: Guid, xs: set<Guid>)
      reads this
    {
      && g in old(objects) && g in objects
      && objects == old(objects)[g := old(objects)[g].(members := objects[g].members)]
      && Lists(objects[g].members, xs)
    }

    method MembersAdd(find: Finder, identity: string, ids: seq<string>) returns (r: Result<Guid, string>)
      requires Resolves(find)
      modifies this
      ensures r.Ok? <==> find(identity).Some? && AllFound(find, ids)
      ensures r.Ok? ==> && find(identity) == Some(r.value)
                        && MembersBecome(r.value, Elements(old(objects)[r.value].members) + Found(find, ids))
      ensures r.Err? ==> objects == old(objects) && find(r.error).None?
    {
      var g := find(identity);
      if g.None? {
        return Err(identity);
      }
      var o := objects[g.value];
      var members := set m | m in o.members;
      for k := 0 to |ids|
        invariant AllFound(find, ids[..k])
        invariant members == Elements(o.members) + Found(find, ids[..k])
      {
        var mo := find(ids[k]);
        if mo.None? {
          return Err(ids[k]);
        }
        members := members + {mo.value};
        assert ids[..k + 1] == ids[..k] + [ids[k]];
      }
      assert ids[..|ids|] == ids;
      var sorted := SortedKeys(members);
      objects := objects[g.value := o.(members := sorted)];
      return Ok(g.value);
    }

    method MembersRemove(find: Finder, identity: string, ids: seq<string>) returns (r: Result<Guid, string>)
      requires Resolves(find)
      modifies this
      ensures r.Ok? <==> find(identity).Some? && AllFound(find, ids)
      ensures r.Ok? ==> && find(identity) == Some(r.value)
                        && MembersBecome(r.value, Elements(old(objects)[r.value].members) - Found(find, ids))
      ensures r.Err? ==> objects == old(objects) && find(r.error).None?
    {
      var g := find(identity);
      if g.None? {
        return Err(identity);
      }
      var o := objects[g.value];
      var members := set m | m in o.members;
      for k := 0 to |ids|
        invariant AllFound(find, ids[..k])
        invariant members == Elements(o.members) - Found(find, ids[..k])
      {
        var mo := find(ids[k]);
        if mo.None? {
          return Err(ids[k]);
        }
        members := members - {mo.value};
        assert ids[..k + 1] == ids[..k] + [ids[k]];
      }
      assert ids[..|ids|] == ids;
      var sorted := SortedKeys(members);
      objects := objects[g.value := o.(members := sorted)];
      return Ok(g.value);
    }
  }

  /** Removing what has just been added gives back the members there were, if none of
      the added ones was a member already. */
  lemma RemoveUndoesAdd(before: seq<Guid>, xs: set<Guid>, added: seq<Guid>, removed: seq<Guid>)
    requires StrictlySorted(before) && Elements(before) !! xs
    requires Lists(added, Elements(before) + xs) && Lists(removed, Elements(added) - xs)
    ensures removed == before
  {
    assert Elements(added) - xs == Elements(before);
    ListingUnique(removed, before, Elements(before));
  }

  /** Giving one group more members leaves nothing out of reach that was in reach. */
  lemma {:induction false} AddingExtends(objects: Objects, start: DirectoryObject, objects': Objects,
                                         start': DirectoryObject, g: Guid, n: nat)
    requires g in objects && g in objects' && objects' == objects[g := objects[g].(members := objects'[g].members)]
    requires Elements(objects[g].members) <= Elements(objects'[g].members)
    requires Elements(start.members) <= Elements(start'.members)
    ensures Within(objects, start, n) <= Within(objects', start', n)
  {
    hide Within;
    if n == 0 {
      AtOnce(objects, start);
      AtOnce(objects', start');
    } else {
      AddingExtends(objects, start, objects', start', g, n - 1);
      assert forall f :: Onward(objects, f) <= Onward(objects', f);
      hide Onward;
      OneStepExtends(objects, start, objects', start', n);
    }
  }

  lemma AtOnce(objects: Objects, start: DirectoryObject)
    ensures Within(objects, start, 0) == Elements(start.members)
  {
  }

  lemma OneStepExtends(objects: Objects, start: DirectoryObject, objects': Objects, start': DirectoryObject, n: nat)
    requires n > 0 && Within(objects, start, n - 1) <= Within(objects', start', n - 1)
    requires forall f :: Onward(objects, f) <= Onward(objects', f)
    ensures Within(objects, start, n) <= Within(objects', start', n)
  {
    hide Onward;
    forall g | g in Within(objects, start, n)
      ensures g in Within(objects', start', n)
    {
      if g !in Within(objects, start, n - 1) {
        var f :| f in Within(objects, start, n - 1) && g in Onward(objects, f);
        assert g in Onward(objects', f);
      }
    }
  }

  /** A live principal added to a group is a leaf of that group and of every group that
      reaches it, and no leaf is lost.  `start` is the group read before the addition and
      `start'` the same group after it. */
  lemma AddedIsLeaf(objects: Objects, start: DirectoryObject, objects': Objects, start': DirectoryObject,
                    g: Guid, x: Guid)
    requires LiveGroup(objects, g) && (Reaches(objects, start, g) || start == objects[g])
    requires g in objects' && objects' == objects[g := objects[g].(members := objects'[g].members)]
    requires Elements(objects[g].members) + {x} == Elements(objects'[g].members)
    requires start' == if start == objects[g] then objects'[g] else start
    requires Live(objects, x) && !LiveGroup(objects, x)
    ensures IsLeaf(objects', start', x)
    ensures forall y :: IsLeaf(objects, start, y) ==> IsLeaf(objects', start', y)
  {
    hide Within;
    forall y | Reaches(objects, start, y) ensures Reaches(objects', start', y) {
      var n: nat :| y in Within(objects, start, n);
      AddingExtends(objects, start, objects', start', g, n);
    }
    if start == objects[g] {
      assert x in Elements(start'.members);
      DirectMember(objects', start', x);
    } else {
      ReachesOnward(objects', start', g, x);
    }
  }
}
