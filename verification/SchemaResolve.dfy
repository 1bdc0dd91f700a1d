/** Resolve (internal/adschema/resolve.go): the effective attribute sets of named
    classes, as a function of the schema and not of the order it was listed in. */
module SchemaResolve {
  import opened Common
  import opened Strings
  import opened Schema

  const CATEGORY_STRUCTURAL := 1

  datatype Raw = Raw(attributes: seq<Name>, classes: seq<RawClass>)

  datatype Class = Class(structural: bool, mandatory: seq<Name>, optional: seq<Name>, via: map<Name, Name>)

  // ---------- The index ----------

  function ClassMap(classes: seq<RawClass>): (m: map<Name, RawClass>)
    ensures forall k <- m :: Fold(m[k].name) == k && m[k] in classes
    ensures forall c <- classes :: Fold(c.name) in m
  {
    if classes == [] then map[]
    else
      var last := classes[|classes| - 1];
      ClassMap(classes[..|classes| - 1])[Fold(last.name) := last]
  }

  function AttrMap(attributes: seq<Name>): (m: map<Name, Name>)
    ensures forall k <- m :: Fold(m[k]) == k && m[k] in attributes
    ensures forall a <- attributes :: Fold(a) in m
  {
    if attributes == [] then map[]
    else
      var last := attributes[|attributes| - 1];
      AttrMap(attributes[..|attributes| - 1])[Fold(last) := last]
  }

  function IndexOf(raw: Raw): Index {
    Index(ClassMap(raw.classes), AttrMap(raw.attributes))
  }

  lemma ClassMapStep(classes: seq<RawClass>, i: nat)
    requires i < |classes|
    ensures ClassMap(classes[..i + 1]) == ClassMap(classes[..i])[Fold(classes[i].name) := classes[i]]
  {
    hide Fold;
    assert classes[..i + 1][..i] == classes[..i];
  }

  lemma AttrMapStep(attributes: seq<Name>, i: nat)
    requires i < |attributes|
    ensures AttrMap(attributes[..i + 1]) == AttrMap(attributes[..i])[Fold(attributes[i]) := attributes[i]]
  {
    hide Fold;
    assert attributes[..i + 1][..i] == attributes[..i];
  }

  lemma NothingIndexed(raw: Raw)
    ensures ClassMap(raw.classes[..0]) == map[] && AttrMap(raw.attributes[..0]) == map[]
  {
  }

  method NewIndex(raw: Raw) returns (ix: Index)
    ensures ix == IndexOf(raw) && ix.Valid()
  {
    hide Fold, ClassMap, AttrMap;
    var classes, attrs := map[], map[];
    NothingIndexed(raw);
    for i := 0 to |raw.classes|
      invariant classes == ClassMap(raw.classes[..i])
    {
      classes := classes[Fold(raw.classes[i].name) := raw.classes[i]];
      ClassMapStep(raw.classes, i);
    }
    for i := 0 to |raw.attributes|
      invariant attrs == AttrMap(raw.attributes[..i])
    {
      attrs := attrs[Fold(raw.attributes[i]) := raw.attributes[i]];
      AttrMapStep(raw.attributes, i);
    }
    assert raw.classes[..|raw.classes|] == raw.classes;
    assert raw.attributes[..|raw.attributes|] == raw.attributes;
    ix := Index(classes, attrs);
  }

  // ---------- Resolve ----------

  function Marked(contrib: map<Name, Contribution>, mandatory: bool): set<Name> {
    set a | a in contrib && contrib[a].mandatory == mandatory
  }

  ghost predicate Renders(c: Class, cl: RawClass, contrib: map<Name, Contribution>) {
    && c.structural == (cl.category == CATEGORY_STRUCTURAL)
    && Lists(c.mandatory, Marked(contrib, true))
    && Lists(c.optional, Marked(contrib, false))
    && c.via == map a | a in contrib :: contrib[a].class_
  }

  ghost predicate IsResolved(ix: Index, s: Name, c: Class) {
    && s in ix.classes
    && exists depths, contrib :: IsClosure(ix, s, depths, contrib) && Renders(c, ix.classes[s], contrib)
  }

  method Render(cl: RawClass, contrib: map<Name, Contribution>) returns (c: Class)
    ensures Renders(c, cl, contrib)
  {
    hide Filtered, StrictlySorted;
    var mandatory, optional, via := [], [], map[];
    var keys := SortedKeys(contrib.Keys);
    NothingFiltered(keys, contrib, true);
    NothingFiltered(keys, contrib, false);
    for i := 0 to |keys|
      invariant Filtered(mandatory, keys[..i], contrib, true)
      invariant Filtered(optional, keys[..i], contrib, false)
      invariant via == map a | a in keys[..i] && a in contrib :: contrib[a].class_
    {
      assert keys[i] in Elements(keys);
      var a := contrib[keys[i]];
      assert keys[..i + 1] == keys[..i] + [keys[i]];
      FilterStep(mandatory, keys, i, contrib, true);
      FilterStep(optional, keys, i, contrib, false);
      if a.mandatory {
        mandatory := mandatory + [keys[i]];
      } else {
        optional := optional + [keys[i]];
      }
      via := via[keys[i] := a.class_];
    }
    assert keys[..|keys|] == keys;
    assert forall a :: a in Elements(keys) <==> a in contrib;
    AllFiltered(mandatory, keys, contrib, true);
    AllFiltered(optional, keys, contrib, false);
    c := Class(cl.category == CATEGORY_STRUCTURAL, mandatory, optional, via);
  }

  /** `out` is the sorted sublist of the keys that carry the mark. */
  ghost predicate Filtered(out: seq<Name>, keys: seq<Name>, contrib: map<Name, Contribution>, mandatory: bool) {
    Lists(out, set a | a in keys && a in contrib && contrib[a].mandatory == mandatory)
  }

  lemma NothingFiltered(keys: seq<Name>, contrib: map<Name, Contribution>, mandatory: bool)
    ensures Filtered([], keys[..0], contrib, mandatory)
  {
  }

  lemma AllFiltered(out: seq<Name>, keys: seq<Name>, contrib: map<Name, Contribution>, mandatory: bool)
    requires Filtered(out, keys, contrib, mandatory) && Elements(keys) == contrib.Keys
    ensures Lists(out, Marked(contrib, mandatory))
  {
    hide StrictlySorted;
    assert forall a :: a in keys <==> a in Elements(keys);
    assert (set a | a in keys && a in contrib && contrib[a].mandatory == mandatory) == Marked(contrib, mandatory);
  }

  lemma FilterStep(out: seq<Name>, keys: seq<Name>, i: nat, contrib: map<Name, Contribution>, mandatory: bool)
    requires StrictlySorted(keys) && i < |keys| && keys[i] in contrib
    requires Filtered(out, keys[..i], contrib, mandatory)
    ensures Filtered(if contrib[keys[i]].mandatory == mandatory then out + [keys[i]] else out,
                     keys[..i + 1], contrib, mandatory)
  {
    assert keys[..i + 1] == keys[..i] + [keys[i]];
    forall j | 0 <= j < |out| ensures Less(out[j], keys[i]) {
      assert out[j] in Elements(out);
    }
    assert forall x :: x in out + [keys[i]] <==> x in out || x == keys[i];
    assert forall x :: x in out <==> x in Elements(out);
  }

  method Resolve(raw: Raw, classNames: seq<Name>) returns (r: Result<map<Name, Class>, Missing>)
    ensures r.Ok? ==> var ix := IndexOf(raw);
              && (forall w <- classNames :: Fold(w) in ix.classes)
              && r.value.Keys == (set w | w in classNames && Fold(w) in ix.classes :: ix.classes[Fold(w)].name)
              && forall w <- classNames :: IsResolved(ix, Fold(w), r.value[ix.classes[Fold(w)].name])
    ensures r.Err? <==> var ix := IndexOf(raw);
              exists w :: w in classNames && (Fold(w) !in ix.classes || Fails(ix, Fold(w)))
  {
    hide Fails, IsResolved, Renders, IsClosure, Fold, IndexOf;
    var ix := NewIndex(raw);
    var out: map<Name, Class> := map[];
    for i := 0 to |classNames|
      invariant forall w <- classNames[..i] :: Fold(w) in ix.classes && !Fails(ix, Fold(w))
      invariant out.Keys == set w | w in classNames[..i] && Fold(w) in ix.classes :: ix.classes[Fold(w)].name
      invariant forall w <- classNames[..i] :: IsResolved(ix, Fold(w), out[ix.classes[Fold(w)].name])
    {
      var want := classNames[i];
      assert classNames[..i + 1] == classNames[..i] + [want];
      if Fold(want) !in ix.classes {
        return Err(NoSuchClass(want));
      }
      var cl := ix.classes[Fold(want)];
      var contrib, depths := Closure(ix, cl);
      if contrib.Err? {
        return Err(contrib.error);
      }
      var c := Render(cl, contrib.value);
      Resolved(ix, Fold(want), depths, contrib.value, c);
      out := out[cl.name := c];
    }
    assert classNames[..|classNames|] == classNames;
    return Ok(out);
  }

  lemma Resolved(ix: Index, s: Name, depths: map<Name, nat>, contrib: map<Name, Contribution>, c: Class)
    requires s in ix.classes && IsClosure(ix, s, depths, contrib) && Renders(c, ix.classes[s], contrib)
    ensures IsResolved(ix, s, c)
  {
  }

  // ---------- The result is a function of the schema ----------

  lemma DepthsUnique(ix: Index, s: Name, depths: map<Name, nat>, depths': map<Name, nat>)
    requires IsDepths(ix, s, depths) && IsDepths(ix, s, depths')
    ensures depths == depths'
  {
    forall f ensures f in depths <==> f in depths' {
      if f in depths {
        assert ix.Reachable(s, f);
      }
      if f in depths' {
        assert ix.Reachable(s, f);
      }
    }
    forall f | f in depths ensures depths[f] == depths'[f] {
      DistanceUnique(ix, s, f, depths[f], depths'[f]);
    }
  }

  lemma ResolvedUnique(ix: Index, s: Name, c: Class, c': Class)
    requires IsResolved(ix, s, c) && IsResolved(ix, s, c')
    ensures c == c'
  {
    var depths, contrib :| IsClosure(ix, s, depths, contrib) && Renders(c, ix.classes[s], contrib);
    var depths', contrib' :| IsClosure(ix, s, depths', contrib') && Renders(c', ix.classes[s], contrib');
    DepthsUnique(ix, s, depths, depths');
    JoinUnique(contrib, contrib', AllListings(ix, depths, depths.Keys));
    ListingUnique(c.mandatory, c'.mandatory, Marked(contrib, true));
    ListingUnique(c.optional, c'.optional, Marked(contrib, false));
  }

  /** Mandatory and optional attributes split the keys of `via` between them. */
  lemma SplitsVia(ix: Index, s: Name, c: Class)
    requires IsResolved(ix, s, c)
    ensures StrictlySorted(c.mandatory) && StrictlySorted(c.optional)
    ensures Elements(c.mandatory) !! Elements(c.optional)
    ensures Elements(c.mandatory) + Elements(c.optional) == c.via.Keys
  {
    hide IsClosure;
    var depths, contrib :| IsClosure(ix, s, depths, contrib) && Renders(c, ix.classes[s], contrib);
    RenderSplits(c, ix.classes[s], contrib);
  }

  lemma RenderSplits(c: Class, cl: RawClass, contrib: map<Name, Contribution>)
    requires Renders(c, cl, contrib)
    ensures Elements(c.mandatory) !! Elements(c.optional)
    ensures Elements(c.mandatory) + Elements(c.optional) == c.via.Keys
  {
    hide StrictlySorted, Elements;
    assert Marked(contrib, true) !! Marked(contrib, false);
    assert Marked(contrib, true) + Marked(contrib, false) == contrib.Keys == c.via.Keys;
  }

  /** The same class up to the order and repetition of what it lists. */
  predicate SameClass(c: RawClass, c': RawClass) {
    && c.name == c'.name && c.category == c'.category
    && Elements(c.Next()) == Elements(c'.Next())
    && Elements(c.must + c.systemMust) == Elements(c'.must + c'.systemMust)
    && Elements(c.may + c.systemMay) == Elements(c'.may + c'.systemMay)
  }

  predicate SameSchema(ix: Index, ix': Index) {
    && ix.attrs == ix'.attrs && ix.classes.Keys == ix'.classes.Keys
    && forall k <- ix.classes :: SameClass(ix.classes[k], ix'.classes[k])
  }

  lemma SameSuccessors(ix: Index, ix': Index, f: Name)
    requires SameSchema(ix, ix')
    ensures ix.Successors(f) == ix'.Successors(f)
  {
    if f in ix.classes {
      assert forall n :: n in ix.classes[f].Next() <==> n in Elements(ix.classes[f].Next());
      assert forall n :: n in ix'.classes[f].Next() <==> n in Elements(ix'.classes[f].Next());
    }
  }

  lemma SameUnion(ix: Index, ix': Index, fs: set<Name>)
    requires forall f <- fs :: ix.Successors(f) == ix'.Successors(f)
    ensures (set f, g | f in fs && g in ix.Successors(f) :: g) == (set f, g | f in fs && g in ix'.Successors(f) :: g)
  {
  }

  lemma WithinStep(ix: Index, s: Name, n: nat)
    ensures n == 0 ==> ix.Within(s, n) == {s}
    ensures n > 0 ==>
      ix.Within(s, n) == ix.Within(s, n - 1) + set f, g | f in ix.Within(s, n - 1) && g in ix.Successors(f) :: g
  {
    hide Index.Successors;
  }

  lemma {:induction false} SameWithin(ix: Index, ix': Index, s: Name, n: nat)
    requires SameSchema(ix, ix')
    ensures ix.Within(s, n) == ix'.Within(s, n)
  {
    hide SameSchema, Index.Successors, Index.Within;
    WithinStep(ix, s, n);
    WithinStep(ix', s, n);
    if n > 0 {
      SameWithin(ix, ix', s, n - 1);
      forall f ensures ix.Successors(f) == ix'.Successors(f) {
        SameSuccessors(ix, ix', f);
      }
      SameUnion(ix, ix', ix.Within(s, n - 1));
    }
  }

  lemma SameListings(ix: Index, ix': Index, f: Name, d: nat)
    requires SameSchema(ix, ix') && f in ix.classes
    ensures ListingsOf(ix, f, d) == ListingsOf(ix', f, d)
  {
    var c, c' := ix.classes[f], ix'.classes[f];
    hide Fold;
    ListingsBySet(ix, c, d);
    ListingsBySet(ix', c', d);
    assert forall n :: ix.Canonical(n) == ix'.Canonical(n);
  }

  lemma ListingsBySet(ix: Index, c: RawClass, d: nat)
    ensures GroupListings(ix, c, d, 4)
         == (set n | n in Elements(c.must + c.systemMust) :: Listing(ix.Canonical(n), d, c.name, true))
          + (set n | n in Elements(c.may + c.systemMay) :: Listing(ix.Canonical(n), d, c.name, false))
  {
    hide Fold;
    assert c.Groups()[0] == (c.must, true) && c.Groups()[1] == (c.systemMust, true);
    assert c.Groups()[2] == (c.may, false) && c.Groups()[3] == (c.systemMay, false);
    assert GroupListings(ix, c, d, 1) == ListingsIn(ix, c.must, d, c.name, true);
    assert GroupListings(ix, c, d, 2)
        == GroupListings(ix, c, d, 1) + ListingsIn(ix, c.systemMust, d, c.name, true);
    assert GroupListings(ix, c, d, 3)
        == GroupListings(ix, c, d, 2) + ListingsIn(ix, c.may, d, c.name, false);
    assert GroupListings(ix, c, d, 4)
        == GroupListings(ix, c, d, 3) + ListingsIn(ix, c.systemMay, d, c.name, false);
  }

  lemma SameReach(ix: Index, ix': Index, s: Name, depths: map<Name, nat>)
    requires SameSchema(ix, ix') && IsDepths(ix, s, depths)
    ensures IsDepths(ix', s, depths)
  {
    hide SameSchema, Index.Reachable, Index.Distance;
    forall f ensures ix.Reachable(s, f) <==> ix'.Reachable(s, f) {
      SameReachable(ix, ix', s, f);
    }
    forall f | f in depths ensures ix'.Distance(s, f, depths[f]) {
      SameDistance(ix, ix', s, f, depths[f]);
    }
  }

  lemma SameDistance(ix: Index, ix': Index, s: Name, f: Name, d: nat)
    requires SameSchema(ix, ix')
    ensures ix.Distance(s, f, d) <==> ix'.Distance(s, f, d)
  {
    hide SameSchema, Index.Within;
    SameWithin(ix, ix', s, d);
    if d > 0 {
      SameWithin(ix, ix', s, d - 1);
    }
  }

  lemma SameDangling(ix: Index, ix': Index, f: Name)
    requires SameSchema(ix, ix') && f in ix.classes
    ensures f in ix'.classes && (ix.Dangling(f) <==> ix'.Dangling(f))
  {
    hide Fold;
    var c, c' := ix.classes[f], ix'.classes[f];
    assert SameClass(c, c');
    NamesBySet(c);
    NamesBySet(c');
    assert forall n :: n in c.Next() <==> n in Elements(c.Next());
    assert forall n :: n in c'.Next() <==> n in Elements(c'.Next());
  }

  lemma SameComplete(ix: Index, ix': Index, fs: set<Name>)
    requires SameSchema(ix, ix') && Complete(ix, fs)
    ensures Complete(ix', fs)
  {
    hide SameClass, Index.Dangling;
    forall f | f in fs ensures f in ix'.classes && !ix'.Dangling(f) {
      SameDangling(ix, ix', f);
    }
  }

  lemma SameReachable(ix: Index, ix': Index, s: Name, f: Name)
    requires SameSchema(ix, ix')
    ensures ix.Reachable(s, f) <==> ix'.Reachable(s, f)
  {
    hide SameSchema, Index.Within;
    forall n: nat ensures ix.Within(s, n) == ix'.Within(s, n) {
      SameWithin(ix, ix', s, n);
    }
  }

  lemma SameFailure(ix: Index, ix': Index, s: Name)
    requires SameSchema(ix, ix')
    ensures Fails(ix, s) ==> Fails(ix', s)
  {
    if Fails(ix, s) {
      var f :| f in ix.classes && ix.Reachable(s, f) && ix.Dangling(f);
      SameReachable(ix, ix', s, f);
      SameDangling(ix, ix', f);
    }
  }

  lemma NamesBySet(c: RawClass)
    ensures forall n :: c.Names(n) <==> n in Elements(c.must + c.systemMust) + Elements(c.may + c.systemMay)
  {
    forall n ensures c.Names(n) <==> n in c.must || n in c.systemMust || n in c.may || n in c.systemMay {
      assert c.Groups()[0].0 == c.must && c.Groups()[1].0 == c.systemMust;
      assert c.Groups()[2].0 == c.may && c.Groups()[3].0 == c.systemMay;
    }
  }

  lemma SameClosure(ix: Index, ix': Index, s: Name, depths: map<Name, nat>, contrib: map<Name, Contribution>)
    requires SameSchema(ix, ix') && IsClosure(ix, s, depths, contrib)
    ensures IsClosure(ix', s, depths, contrib)
  {
    SameReach(ix, ix', s, depths);
    SameComplete(ix, ix', depths.Keys);
    hide ListingsOf, IsDepths, Complete, JoinOf;
    forall f, d | f in ix.classes ensures ListingsOf(ix, f, d) == ListingsOf(ix', f, d) {
      SameListings(ix, ix', f, d);
    }
    hide SameClass;
    assert AllListings(ix, depths, depths.Keys) == AllListings(ix', depths, depths.Keys);
  }

  /** Folded names are unique, as a schema's are. */
  predicate UniqueNames(raw: Raw) {
    && (forall a, b :: a in raw.attributes && b in raw.attributes && Fold(a) == Fold(b) ==> a == b)
    && (forall a, b :: a in raw.classes && b in raw.classes && Fold(a.name) == Fold(b.name) ==> a == b)
  }

  /** The same fetch, listed in another order at any level. */
  predicate Rearranged(raw: Raw, raw': Raw) {
    && Elements(raw.attributes) == Elements(raw'.attributes)
    && (forall c <- raw.classes :: exists c' :: c' in raw'.classes && SameClass(c, c'))
    && (forall c' <- raw'.classes :: exists c :: c in raw.classes && SameClass(c, c'))
  }

  lemma RearrangedAttrs(a: seq<Name>, b: seq<Name>)
    requires Elements(a) == Elements(b)
    requires forall x, y :: x in a && y in a && Fold(x) == Fold(y) ==> x == y
    ensures AttrMap(a) == AttrMap(b)
  {
    hide Fold;
    assert forall x :: x in a <==> x in Elements(a);
    assert forall x :: x in b <==> x in Elements(b);
    assert AttrMap(a).Keys == AttrMap(b).Keys;
  }

  lemma RearrangedSchema(raw: Raw, raw': Raw)
    requires UniqueNames(raw) && UniqueNames(raw') && Rearranged(raw, raw')
    ensures SameSchema(IndexOf(raw), IndexOf(raw'))
  {
    RearrangedAttrs(raw.attributes, raw'.attributes);
    hide Fold, AttrMap;
    var m, m' := ClassMap(raw.classes), ClassMap(raw'.classes);
    forall k | k in m ensures k in m' && SameClass(m[k], m'[k]) {
      var c' :| c' in raw'.classes && SameClass(m[k], c');
      assert Fold(c'.name) == k;
    }
    forall k | k in m' ensures k in m {
      var c :| c in raw.classes && SameClass(c, m'[k]);
      assert Fold(c.name) == k;
    }
    assert m.Keys == m'.Keys;
  }

  lemma ResolvesAlike(ix: Index, ix': Index, s: Name, c: Class)
    requires SameSchema(ix, ix') && IsResolved(ix, s, c)
    ensures IsResolved(ix', s, c)
  {
    hide IsClosure, Renders, SameClass;
    var depths, contrib :| IsClosure(ix, s, depths, contrib) && Renders(c, ix.classes[s], contrib);
    SameClosure(ix, ix', s, depths, contrib);
    SameRender(c, ix.classes[s], ix'.classes[s], contrib);
  }

  lemma SameSchemaBack(ix: Index, ix': Index)
    requires SameSchema(ix, ix')
    ensures SameSchema(ix', ix)
  {
    forall k | k in ix.classes ensures SameClass(ix'.classes[k], ix.classes[k]) {
      assert SameClass(ix.classes[k], ix'.classes[k]);
    }
  }

  /** Neither what a class resolves to nor whether it fails depends on the order in which
      the schema was listed. */
  lemma ListingOrderIrrelevant(raw: Raw, raw': Raw, s: Name, c: Class)
    requires UniqueNames(raw) && UniqueNames(raw') && Rearranged(raw, raw')
    ensures IsResolved(IndexOf(raw), s, c) <==> IsResolved(IndexOf(raw'), s, c)
    ensures Fails(IndexOf(raw), s) <==> Fails(IndexOf(raw'), s)
  {
    hide IsResolved, Fails, UniqueNames, Rearranged, IndexOf, SameSchema;
    var ix, ix' := IndexOf(raw), IndexOf(raw');
    RearrangedSchema(raw, raw');
    SameSchemaBack(ix, ix');
    SameFailure(ix, ix', s);
    SameFailure(ix', ix, s);
    if IsResolved(ix, s, c) {
      ResolvesAlike(ix, ix', s, c);
    }
    if IsResolved(ix', s, c) {
      ResolvesAlike(ix', ix, s, c);
    }
  }

  lemma SameRender(c: Class, cl: RawClass, cl': RawClass, contrib: map<Name, Contribution>)
    requires Renders(c, cl, contrib) && SameClass(cl, cl')
    ensures Renders(c, cl', contrib)
  {
  }

  // ---------- Inheritance ----------

  lemma {:induction false} ReachesThrough(ix: Index, f: Name, g: Name, n: nat)
    requires g in ix.Successors(f)
    ensures ix.Within(g, n) <= ix.Within(f, n + 1)
  {
    hide Index.Successors, Index.Within;
    WithinStep(ix, f, n + 1);
    WithinStep(ix, g, n);
    if n == 0 {
      WithinStep(ix, f, 0);
    } else {
      ReachesThrough(ix, f, g, n - 1);
    }
  }

  /** A class inherits every attribute of a parent or auxiliary class, and none that
      is mandatory there becomes optional. */
  lemma Inherits(ix: Index, f: Name, g: Name, depths: map<Name, nat>, contrib: map<Name, Contribution>,
                 depths': map<Name, nat>, contrib': map<Name, Contribution>)
    requires g in ix.Successors(f)
    requires IsClosure(ix, f, depths, contrib) && IsClosure(ix, g, depths', contrib')
    ensures contrib'.Keys <= contrib.Keys
    ensures forall a <- contrib' :: contrib'[a].mandatory ==> contrib[a].mandatory
  {
    forall x | x in depths' ensures x in depths {
      ReachesThrough(ix, f, g, depths'[x]);
      assert ix.Reachable(f, x);
    }
    forall a | a in contrib'
      ensures a in contrib && (contrib'[a].mandatory ==> contrib[a].mandatory)
    {
      assert Credits(a, contrib'[a], AllListings(ix, depths', depths'.Keys));
      var mandatory := contrib'[a].mandatory;
      var l :| l in AllListings(ix, depths', depths'.Keys) && l.attr == a && (mandatory ==> l.mandatory);
      var l' := Relisted(ix, depths, depths', l);
      assert Credits(a, contrib[a], AllListings(ix, depths, depths.Keys));
    }
  }

  /** What resolves also has parents and auxiliary classes that do. */
  lemma ParentsResolve(ix: Index, f: Name, g: Name)
    requires g in ix.Successors(f) && !Fails(ix, f)
    ensures !Fails(ix, g)
  {
    hide Index.Successors, Index.Within, Index.Dangling;
    forall x, n: nat | x in ix.Within(g, n)
      ensures ix.Reachable(f, x)
    {
      ReachesThrough(ix, f, g, n);
      assert x in ix.Within(f, n + 1);
    }
  }

  lemma Relisted(ix: Index, depths: map<Name, nat>, depths': map<Name, nat>, l: Listing) returns (l': Listing)
    requires l in AllListings(ix, depths', depths'.Keys) && depths'.Keys <= depths.Keys
    ensures l' in AllListings(ix, depths, depths.Keys) && l'.attr == l.attr && l'.mandatory == l.mandatory
  {
    hide Fold;
    var x :| x in depths' && x in ix.classes && l in ListingsOf(ix, x, depths'[x]);
    l' := l.(depth := depths[x]);
    Redepth(ix, ix.classes[x], depths'[x], depths[x], 4, l);
    assert l' in ListingsOf(ix, x, depths[x]);
  }

  lemma {:induction false} Redepth(ix: Index, c: RawClass, d: nat, d': nat, k: nat, l: Listing)
    requires k <= 4 && l in GroupListings(ix, c, d, k)
    ensures l.(depth := d') in GroupListings(ix, c, d', k)
  {
    hide Fold;
    if l in GroupListings(ix, c, d, k - 1) {
      Redepth(ix, c, d, d', k - 1, l);
    }
  }
}
