/** What a resolved class is, said of the fetched lists themselves: paths of references,
    the attributes the classes on them list, and which class is credited. */
module SchemaMeaning {
  import opened Common
  import opened Strings
  import opened Schema
  import opened SchemaResolve

  // ---------- References and paths ----------

  /** Class `f` refers to `g` as its parent or as an auxiliary of either kind. */
  ghost predicate Refers(ix: Index, f: Name, g: Name) {
    && f in ix.classes
    && (g == Fold(ix.classes[f].subClassOf)
        || (exists n :: n in ix.classes[f].auxiliary && g == Fold(n))
        || (exists n :: n in ix.classes[f].systemAuxiliary && g == Fold(n)))
  }

  lemma SuccessorsAre(ix: Index, f: Name, g: Name)
    ensures g in ix.Successors(f) <==> Refers(ix, f, g)
  {
    hide Fold;
    if f in ix.classes {
      var c := ix.classes[f];
      assert c.Next() == [c.subClassOf] + c.auxiliary + c.systemAuxiliary;
      assert forall n :: n in c.Next() <==> n == c.subClassOf || n in c.auxiliary || n in c.systemAuxiliary;
    }
  }

  /** A path of references. */
  ghost predicate Path(ix: Index, p: seq<Name>) {
    p != [] && forall i :: 0 <= i < |p| - 1 ==> Refers(ix, p[i], p[i + 1])
  }

  ghost predicate PathTo(ix: Index, s: Name, f: Name, p: seq<Name>) {
    Path(ix, p) && p[0] == s && p[|p| - 1] == f
  }

  lemma {:induction false} WithinHasPath(ix: Index, s: Name, f: Name, n: nat) returns (p: seq<Name>)
    requires f in ix.Within(s, n)
    ensures PathTo(ix, s, f, p) && |p| <= n + 1
    decreases n
  {
    hide Refers, Index.Successors, Index.Within;
    WithinStep(ix, s, n);
    if n == 0 {
      p := [s];
    } else if f in ix.Within(s, n - 1) {
      p := WithinHasPath(ix, s, f, n - 1);
    } else {
      var g :| g in ix.Within(s, n - 1) && f in ix.Successors(g);
      var q := WithinHasPath(ix, s, g, n - 1);
      SuccessorsAre(ix, g, f);
      p := q + [f];
    }
  }

  lemma {:induction false} PathIsWithin(ix: Index, s: Name, f: Name, p: seq<Name>)
    requires PathTo(ix, s, f, p)
    ensures f in ix.Within(s, |p| - 1)
    decreases |p|
  {
    hide Refers, Index.Successors, Index.Within;
    var k := |p| - 1;
    WithinStep(ix, s, k);
    if k > 0 {
      var q := p[..k];
      assert Path(ix, q);
      PathIsWithin(ix, s, p[k - 1], q);
      assert Refers(ix, p[k - 1], p[k]);
      SuccessorsAre(ix, p[k - 1], f);
    }
  }

  /** The length of a shortest path. */
  ghost predicate ShortestIs(ix: Index, s: Name, f: Name, d: nat) {
    (exists p :: PathTo(ix, s, f, p) && |p| == d + 1) && forall p :: PathTo(ix, s, f, p) ==> |p| >= d + 1
  }

  ghost predicate Reaches(ix: Index, s: Name, f: Name) {
    exists p :: PathTo(ix, s, f, p)
  }

  lemma ReachableIs(ix: Index, s: Name, f: Name)
    ensures ix.Reachable(s, f) <==> Reaches(ix, s, f)
  {
    hide PathTo, Index.Within;
    if ix.Reachable(s, f) {
      var n: nat :| f in ix.Within(s, n);
      var p := WithinHasPath(ix, s, f, n);
    }
    if Reaches(ix, s, f) {
      var p :| PathTo(ix, s, f, p);
      assert p != [] by {
        PathLong(ix, s, f, p);
      }
      PathIsWithin(ix, s, f, p);
    }
  }

  lemma PathLong(ix: Index, s: Name, f: Name, p: seq<Name>)
    requires PathTo(ix, s, f, p)
    ensures p != []
  {
  }

  lemma DistanceIs(ix: Index, s: Name, f: Name, d: nat)
    requires ix.Distance(s, f, d)
    ensures ShortestIs(ix, s, f, d)
  {
    hide PathTo, Index.Within;
    var p := WithinHasPath(ix, s, f, d);
    PathLong(ix, s, f, p);
    forall q | PathTo(ix, s, f, q)
      ensures |q| >= d + 1
    {
      PathLong(ix, s, f, q);
      PathIsWithin(ix, s, f, q);
      if |q| <= d {
        WithinGrows(ix, s, |q| - 1, d - 1);
      }
    }
    PathIsWithin(ix, s, f, p);
    assert PathTo(ix, s, f, p) && |p| == d + 1;
  }

  // ---------- Listings ----------

  /** Class `f` lists attribute `a`, in any spelling, as one it must contain. */
  ghost predicate Demands(ix: Index, f: Name, a: Name) {
    && f in ix.classes
    && exists n :: (n in ix.classes[f].must || n in ix.classes[f].systemMust)
                   && Fold(n) in ix.attrs && a == ix.attrs[Fold(n)]
  }

  /** Or as one it may contain. */
  ghost predicate Allows(ix: Index, f: Name, a: Name) {
    && f in ix.classes
    && exists n :: (n in ix.classes[f].may || n in ix.classes[f].systemMay)
                   && Fold(n) in ix.attrs && a == ix.attrs[Fold(n)]
  }

  /** Class `f` names an attribute or refers to a class that was not fetched. */
  ghost predicate NamesAbsent(ix: Index, f: Name) {
    && f in ix.classes
    && ((exists n :: (n in ix.classes[f].must || n in ix.classes[f].systemMust || n in ix.classes[f].may
                      || n in ix.classes[f].systemMay) && Fold(n) !in ix.attrs)
        || (exists g :: Refers(ix, f, g) && g !in ix.classes))
  }

  lemma DanglingIs(ix: Index, f: Name)
    requires f in ix.classes
    ensures ix.Dangling(f) <==> NamesAbsent(ix, f)
  {
    hide Fold, Index.Successors, RawClass.Next;
    var c := ix.classes[f];
    NamesBySet(c);
    assert forall n :: c.Names(n) <==> n in c.must || n in c.systemMust || n in c.may || n in c.systemMay;
    NextIs(c);
  }

  lemma NextIs(c: RawClass)
    ensures forall n :: n in c.Next() <==> n == c.subClassOf || n in c.auxiliary || n in c.systemAuxiliary
  {
    assert c.Next() == [c.subClassOf] + c.auxiliary + c.systemAuxiliary;
  }

  /** A closure fails iff some class that a path leads to names something absent. */
  lemma FailsIff(ix: Index, s: Name)
    ensures Fails(ix, s) <==> exists f :: Reaches(ix, s, f) && NamesAbsent(ix, f)
  {
    hide Index.Reachable, Reaches, Index.Dangling, NamesAbsent;
    forall f
      ensures ix.Reachable(s, f) <==> Reaches(ix, s, f)
      ensures f in ix.classes ==> (ix.Dangling(f) <==> NamesAbsent(ix, f))
      ensures NamesAbsent(ix, f) ==> f in ix.classes
    {
      ReachableIs(ix, s, f);
      if f in ix.classes {
        DanglingIs(ix, f);
      } else {
        NotFetched(ix, f);
      }
    }
  }

  lemma NotFetched(ix: Index, f: Name)
    requires f !in ix.classes
    ensures !NamesAbsent(ix, f)
  {
  }

  /** The listings of one class, of a closure that does not fail. */
  lemma ListedIs(ix: Index, f: Name, d: nat, l: Listing)
    requires f in ix.classes && !ix.Dangling(f)
    ensures l in ListingsOf(ix, f, d) <==>
      && l.depth == d && l.class_ == ix.classes[f].name
      && (if l.mandatory then Demands(ix, f, l.attr) else Allows(ix, f, l.attr))
  {
    hide Fold, RawClass.Names;
    var c := ix.classes[f];
    ListingsBySet(ix, c, d);
    NamesBySet(c);
    assert forall n :: n in Elements(c.must + c.systemMust) <==> n in c.must || n in c.systemMust;
    assert forall n :: n in Elements(c.may + c.systemMay) <==> n in c.may || n in c.systemMay;
    assert forall n :: c.Names(n) ==> Fold(n) in ix.attrs;
  }

  /** Class `f` lists `a` in any of its four lists. */
  ghost predicate Contributes(ix: Index, f: Name, a: Name) {
    Demands(ix, f, a) || Allows(ix, f, a)
  }

  // ---------- What is resolved ----------

  /** The attribute has one of these classes as its nearest contributor, ties by name. */
  ghost predicate Credited(ix: Index, s: Name, a: Name, name: Name) {
    exists f, d ::
      && Reaches(ix, s, f) && ShortestIs(ix, s, f, d) && Contributes(ix, f, a) && ix.classes[f].name == name
      && forall g, e :: Reaches(ix, s, g) && ShortestIs(ix, s, g, e) && Contributes(ix, g, a) ==>
           d < e || (d == e && !Less(ix.classes[g].name, name))
  }

  /** Of a closure: which attributes it has, which are mandatory, and whom it credits. */
  lemma ClosureMeans(ix: Index, s: Name, depths: map<Name, nat>, contrib: map<Name, Contribution>, a: Name)
    requires IsClosure(ix, s, depths, contrib)
    ensures a in contrib <==> exists f :: Reaches(ix, s, f) && Contributes(ix, f, a)
    ensures a in contrib ==> (contrib[a].mandatory <==> exists f :: Reaches(ix, s, f) && Demands(ix, f, a))
    ensures a in contrib ==> Credited(ix, s, a, contrib[a].class_)
  {
    hide IsDepths, Reaches, Contributes, Demands, ShortestIs, ListingsOf, Credited, JoinOf;
    var ls := AllListings(ix, depths, depths.Keys);
    forall f
      ensures Reaches(ix, s, f) <==> f in depths
      ensures f in depths ==> f in ix.classes && ShortestIs(ix, s, f, depths[f])
    {
      DepthsAre(ix, s, depths, f);
    }
    forall l
      ensures l in ls <==> exists f :: Lister(ix, depths, f, l)
    {
      ListersAre(ix, depths, l);
    }
    JoinMeans(contrib, ls, a);
    if exists f :: Reaches(ix, s, f) && Contributes(ix, f, a) {
      var f :| Reaches(ix, s, f) && Contributes(ix, f, a);
      var l := ListingBy(ix, depths, f, a);
    }
    if a in contrib {
      CreditMeans(ix, s, depths, contrib, a);
      if exists f :: Reaches(ix, s, f) && Demands(ix, f, a) {
        var f :| Reaches(ix, s, f) && Demands(ix, f, a);
        var l := DemandBy(ix, depths, f, a);
      }
      ListerContributes(ix, depths, a);
      if contrib[a].mandatory {
        var l :| l in ls && l.attr == a && l.mandatory;
        var f :| Lister(ix, depths, f, l);
        assert Reaches(ix, s, f) && Demands(ix, f, a);
      }
      var l :| l in ls && l.attr == a;
      var f :| Lister(ix, depths, f, l);
      assert Reaches(ix, s, f) && Contributes(ix, f, a);
    }
  }

  /** The listing `l` is one of class `f`'s, at its depth. */
  ghost predicate Lister(ix: Index, depths: map<Name, nat>, f: Name, l: Listing) {
    f in depths && f in ix.classes && l in ListingsOf(ix, f, depths[f])
  }

  lemma ListersAre(ix: Index, depths: map<Name, nat>, l: Listing)
    ensures l in AllListings(ix, depths, depths.Keys) <==> exists f :: Lister(ix, depths, f, l)
  {
    hide ListingsOf;
    if exists f :: Lister(ix, depths, f, l) {
      var f :| Lister(ix, depths, f, l);
    }
    if l in AllListings(ix, depths, depths.Keys) {
      var f :| f in depths && f in ix.classes && l in ListingsOf(ix, f, depths[f]);
      assert Lister(ix, depths, f, l);
    }
  }

  lemma DepthsAre(ix: Index, s: Name, depths: map<Name, nat>, f: Name)
    requires IsDepths(ix, s, depths) && Complete(ix, depths.Keys)
    ensures Reaches(ix, s, f) <==> f in depths
    ensures f in depths ==> f in ix.classes && ShortestIs(ix, s, f, depths[f])
  {
    hide Reaches, ShortestIs, Index.Dangling;
    ReachableIs(ix, s, f);
    if f in depths {
      DistanceIs(ix, s, f, depths[f]);
    }
  }

  lemma JoinMeans(contrib: map<Name, Contribution>, ls: set<Listing>, a: Name)
    requires JoinOf(contrib, ls)
    ensures a in contrib <==> exists l :: l in ls && l.attr == a
    ensures a in contrib ==> (contrib[a].mandatory <==> exists l :: l in ls && l.attr == a && l.mandatory)
  {
    if a in contrib {
      assert Credits(a, contrib[a], ls);
    }
  }

  lemma ListingBy(ix: Index, depths: map<Name, nat>, f: Name, a: Name) returns (l: Listing)
    requires f in depths && f in ix.classes && !ix.Dangling(f) && Contributes(ix, f, a)
    ensures Lister(ix, depths, f, l) && l.attr == a && l.depth == depths[f] && l.class_ == ix.classes[f].name
  {
    hide Demands, Allows, ListingsOf, Index.Dangling;
    l := Listing(a, depths[f], ix.classes[f].name, Demands(ix, f, a));
    ListedIs(ix, f, depths[f], l);
  }

  lemma DemandBy(ix: Index, depths: map<Name, nat>, f: Name, a: Name) returns (l: Listing)
    requires f in depths && f in ix.classes && !ix.Dangling(f) && Demands(ix, f, a)
    ensures Lister(ix, depths, f, l) && l.attr == a && l.mandatory
  {
    hide Demands, Allows, ListingsOf, Index.Dangling;
    l := Listing(a, depths[f], ix.classes[f].name, true);
    ListedIs(ix, f, depths[f], l);
  }

  lemma ListerContributes(ix: Index, depths: map<Name, nat>, a: Name)
    requires Complete(ix, depths.Keys)
    ensures forall f, l :: Lister(ix, depths, f, l) && l.attr == a ==>
      && Contributes(ix, f, a) && (l.mandatory ==> Demands(ix, f, a))
      && l.depth == depths[f] && l.class_ == ix.classes[f].name
  {
    hide Demands, Allows, ListingsOf, Index.Dangling;
    forall f, l | Lister(ix, depths, f, l) && l.attr == a
      ensures Contributes(ix, f, a) && (l.mandatory ==> Demands(ix, f, a))
      ensures l.depth == depths[f] && l.class_ == ix.classes[f].name
    {
      ListedIs(ix, f, depths[f], l);
    }
  }

  lemma CreditMeans(ix: Index, s: Name, depths: map<Name, nat>, contrib: map<Name, Contribution>, a: Name)
    requires IsClosure(ix, s, depths, contrib) && a in contrib
    ensures Credited(ix, s, a, contrib[a].class_)
  {
    hide IsDepths, Reaches, Contributes, ShortestIs, ListingsOf, AllListings, Index.Dangling, Less;
    var ls := AllListings(ix, depths, depths.Keys);
    var c := contrib[a];
    assert Credits(a, c, ls);
    var l :| l in ls && l.attr == a && l.depth == c.depth && l.class_ == c.class_;
    ListersAre(ix, depths, l);
    var f :| Lister(ix, depths, f, l);
    ListerContributes(ix, depths, a);
    DepthsAre(ix, s, depths, f);
    ContributorsFetched(ix, a);
    forall g, e | Reaches(ix, s, g) && ShortestIs(ix, s, g, e) && Contributes(ix, g, a)
      ensures c.depth < e || (c.depth == e && !Less(ix.classes[g].name, c.class_))
    {
      DepthsAre(ix, s, depths, g);
      OneShortest(ix, s, g, e, depths[g]);
      var m := ListingBy(ix, depths, g, a);
      ListersAre(ix, depths, m);
    }
  }

  lemma ContributorsFetched(ix: Index, a: Name)
    ensures forall g :: Contributes(ix, g, a) ==> g in ix.classes
  {
  }

  lemma OneShortest(ix: Index, s: Name, f: Name, d: nat, e: nat)
    requires ShortestIs(ix, s, f, d) && ShortestIs(ix, s, f, e)
    ensures d == e
  {
    hide PathTo;
  }

  /** What a resolved class is, in terms of the fetched lists: its attributes are those
      that classes at the end of a path list; it demands those that some such class
      demands; each is credited to the nearest class that lists it, the least name among
      equals; and it is structural iff its category is 1. */
  lemma ResolvedMeans(ix: Index, s: Name, c: Class, a: Name)
    requires IsResolved(ix, s, c)
    ensures a in c.via <==> exists f :: Reaches(ix, s, f) && Contributes(ix, f, a)
    ensures a in c.mandatory <==> exists f :: Reaches(ix, s, f) && Demands(ix, f, a)
    ensures a in c.optional <==> a in c.via && a !in c.mandatory
    ensures a in c.via ==> Credited(ix, s, a, c.via[a])
    ensures c.structural <==> ix.classes[s].category == 1
  {
    hide IsClosure, Reaches, Contributes, Demands, Credited;
    var depths, contrib :| IsClosure(ix, s, depths, contrib) && Renders(c, ix.classes[s], contrib);
    ClosureMeans(ix, s, depths, contrib, a);
    assert a in c.mandatory <==> a in Elements(c.mandatory);
    assert a in c.optional <==> a in Elements(c.optional);
    if exists f :: Reaches(ix, s, f) && Demands(ix, f, a) {
      var f :| Reaches(ix, s, f) && Demands(ix, f, a);
      DemandContributes(ix, f, a);
    }
  }

  lemma DemandContributes(ix: Index, f: Name, a: Name)
    ensures Demands(ix, f, a) ==> Contributes(ix, f, a)
  {
  }

  /** In particular: an auxiliary class of either kind counts. Its attributes are the
      class's own, what it demands is demanded, and its absence makes the class fail. */
  lemma AuxiliariesCount(ix: Index, s: Name, n: Name, a: Name)
    requires s in ix.classes && (n in ix.classes[s].auxiliary || n in ix.classes[s].systemAuxiliary)
    ensures Fold(n) !in ix.classes ==> Fails(ix, s)
    ensures forall c :: IsResolved(ix, s, c) && Contributes(ix, Fold(n), a) ==> a in c.via
    ensures forall c :: IsResolved(ix, s, c) && Demands(ix, Fold(n), a) ==> a in c.mandatory
  {
    hide Contributes, Demands, IsResolved, Fails, Credited, Fold;
    var p, q := [s], [s, Fold(n)];
    assert Refers(ix, s, Fold(n));
    assert PathTo(ix, s, s, p) && PathTo(ix, s, Fold(n), q);
    FailsIff(ix, s);
    assert Fold(n) !in ix.classes ==> NamesAbsent(ix, s);
    hide PathTo;
    assert Reaches(ix, s, s) && Reaches(ix, s, Fold(n));
    forall c | IsResolved(ix, s, c)
      ensures Contributes(ix, Fold(n), a) ==> a in c.via
      ensures Demands(ix, Fold(n), a) ==> a in c.mandatory
    {
      ResolvedMeans(ix, s, c, a);
    }
  }
}
