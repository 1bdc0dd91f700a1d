/** The out-of-process packet splitter and the buffered reader built on it
    (internal/oop/framer.go).  A byte is modelled as a `char`; nothing depends on
    the range of a character. */
module Framer {
  import opened Common
  import opened Search

  type Bytes = seq<char>

  const MAX_SELF_CLOSE := 256
  const CLOSE_DATA: Bytes := "</Data>"
  const CLOSE_SELF: Bytes := "/>"
  const NEWLINE: Bytes := "\n"

  predicate OpensData(s: Bytes) {
    "<Data " <= s || "<Data>" <= s
  }

  // ---------- One scan step ----------

  /** What the scanner does with the text in front of it: skip it all for want of
      a tag, wait at a tag it cannot complete, or cut out the packet
      `s[start..end]`. */
  datatype Scan = NoTag | Stuck(start: nat) | Packet(start: nat, end: nat)

  function ScanTag(s: Bytes): (r: Option<nat>)
    requires s != []
    ensures r.Some? ==> 2 <= r.value <= |s|
  {
    if OpensData(s) then
      var e := Find(s, CLOSE_DATA, 0);
      if e == -1 then None else Some(e + |CLOSE_DATA|)
    else
      var lim := if MAX_SELF_CLOSE < |s| then MAX_SELF_CLOSE else |s|;
      var e := Find(s[..lim], CLOSE_SELF, 0);
      var next := Find(s[1..], "<", 0);
      if e == -1 || (next != -1 && 1 + next < e + 2) then None else Some(e + 2)
  }

  function ScanFirst(s: Bytes): (r: Scan)
    ensures r.Stuck? ==> r.start < |s|
    ensures r.Packet? ==> r.start + 2 <= r.end <= |s|
  {
    var start := Find(s, "<", 0);
    if start == -1 then NoTag
    else match ScanTag(s[start..])
      case None => Stuck(start)
      case Some(len) => Packet(start, start + len)
  }

  // ---------- The splitter ----------

  /** The packets cut out of `s`, each still without its newline. */
  function Packets(s: Bytes): seq<Bytes>
    decreases |s|
  {
    match ScanFirst(s)
    case Packet(st, en) => [s[st..en]] + Packets(s[en..])
    case _ => []
  }

  /** What is left to carry over once every complete packet has been cut out. */
  function Rest(s: Bytes): (r: Bytes)
    ensures |r| <= |s|
    decreases |s|
  {
    match ScanFirst(s)
    case Packet(_, en) => Rest(s[en..])
    case Stuck(st) => s[st..]
    case NoTag => s
  }

  /** Packets as they are handed on: each one followed by a newline. */
  function Lines(ps: seq<Bytes>): Bytes {
    if ps == [] then [] else ps[0] + NEWLINE + Lines(ps[1..])
  }

  lemma LinesStep(p: seq<Bytes>)
    requires p != []
    ensures Lines(p) == (p[0] + NEWLINE) + Lines(p[1..])
  {
  }

  lemma {:induction false} LinesConcat(p: seq<Bytes>, q: seq<Bytes>)
    ensures Lines(p + q) == Lines(p) + Lines(q)
  {
    if p == [] {
      assert p + q == q;
    } else {
      LinesConcat(p[1..], q);
      assert (p + q)[1..] == p[1..] + q;
      hide Lines;
      LinesStep(p);
      LinesStep(p + q);
      ConcatAssociates(p[0] + NEWLINE, Lines(p[1..]), Lines(q));
    }
  }

  /** Cutting one packet out of `data[i..]` leaves the scan of `data[end..]`. */
  lemma CutAt(data: Bytes, out: Bytes, i: nat, start: nat, end: nat)
    requires i <= start < end <= |data|
    requires ScanFirst(data[i..]) == Packet(start - i, end - i)
    ensures out + Lines(Packets(data[i..])) == (out + data[start..end] + NEWLINE) + Lines(Packets(data[end..]))
    ensures Rest(data[i..]) == Rest(data[end..])
  {
    hide ScanFirst;
    assert data[i..][start - i..end - i] == data[start..end];
    assert data[i..][end - i..] == data[end..];
    assert Packets(data[i..]) == [data[start..end]] + Packets(data[end..]);
  }

  /** The scan of `data[i..]` is decided by its first tag, at `start`. */
  lemma ScanAt(data: Bytes, i: nat, start: nat)
    requires i <= start < |data| && Find(data[i..], "<", 0) == start - i
    ensures data[start] == '<'
    ensures ScanFirst(data[i..]) == match ScanTag(data[start..])
                                    case None => Stuck(start - i)
                                    case Some(len) => Packet(start - i, start - i + len)
  {
    FindFirst(data[i..], "<", 0);
    assert At(data[i..], "<", start - i);
    assert data[i..][start - i..] == data[start..];
  }

  lemma NoTagIn(s: Bytes)
    requires Find(s, "<", 0) == -1
    ensures Lines(Packets(s)) == []
    ensures Rest(s) == s
  {
  }

  /** A tag the scan is stuck at is where the remaining text begins. */
  lemma StuckAt(data: Bytes, i: nat, start: nat)
    requires i <= start < |data| && ScanFirst(data[i..]) == Stuck(start - i)
    ensures Lines(Packets(data[i..])) == []
    ensures Rest(data[i..]) == data[start..]
  {
    assert data[i..][start - i..] == data[start..];
  }

  /** splitOutOfProcPackets: the loop over index `i`. */
  method SplitOutOfProcPackets(data: Bytes) returns (out: Bytes, remaining: Bytes)
    ensures out == Lines(Packets(data))
    ensures remaining == Rest(data)
  {
    hide Packets, Rest, Lines, Find;
    out := [];
    var i := 0;
    assert data[0..] == data;
    while i < |data|
      invariant 0 <= i <= |data|
      invariant out + Lines(Packets(data[i..])) == Lines(Packets(data))
      invariant Rest(data[i..]) == Rest(data)
      decreases |data| - i
    {
      ghost var was := i;
      var start := Find(data[i..], "<", 0);
      if start == -1 {
        NoTagIn(data[i..]);
        return out, data[i..];
      }
      start := start + i;
      ScanAt(data, i, start);
      if start > i {
        i := start;
      }
      var tag := data[start..];
      var nextStart := Find(tag[1..], "<", 0);
      if nextStart != -1 {
        nextStart := start + 1 + nextStart;
      }
      if OpensData(tag) {
        var end := Find(tag, CLOSE_DATA, 0);
        if end == -1 {
          StuckAt(data, was, start);
          return out, data[i..];
        }
        var endPos := start + end + |CLOSE_DATA|;
        CutAt(data, out, was, start, endPos);
        out := out + data[start..endPos] + NEWLINE;
        i := endPos;
        continue;
      }
      var searchEnd := |data|;
      if start + MAX_SELF_CLOSE < searchEnd {
        searchEnd := start + MAX_SELF_CLOSE;
      }
      var end := Find(tag[..searchEnd - start], CLOSE_SELF, 0);
      if end == -1 {
        StuckAt(data, was, start);
        return out, data[i..];
      }
      var endPos := start + end + 2;
      if nextStart != -1 && nextStart < endPos {
        StuckAt(data, was, start);
        return out, data[i..];
      }
      CutAt(data, out, was, start, endPos);
      out := out + data[start..endPos] + NEWLINE;
      i := endPos;
    }
    NoTagIn(data[i..]);
    remaining := data[i..];
  }

  // ---------- The split does not depend on how the stream is chunked ----------

  /** An opening `<Data` cannot come into being behind a "/>". */
  lemma OpensDataStable(s: Bytes, b: Bytes, e: nat)
    requires At(s, CLOSE_SELF, e)
    ensures OpensData(s + b) == OpensData(s)
  {
    assert s[e..e + 2][0] == '/';
    assert (s + b)[e] == '/';
    if |s| >= 6 {
      assert (s + b)[..6] == s[..6];
    }
  }

  lemma WindowGrows(s: Bytes, b: Bytes, lim: nat, lim': nat)
    requires lim <= |s| && lim <= lim' <= |s + b|
    ensures (s + b)[..lim'] == s[..lim] + (s + b)[lim..lim']
  {
    var all := s + b;
    assert all[..lim] == s[..lim];
    assert all[..lim'] == all[..lim] + all[lim..lim'];
  }

  lemma SelfTagStable(s: Bytes, b: Bytes)
    requires s != [] && ScanTag(s).Some? && !OpensData(s)
    ensures ScanTag(s + b) == ScanTag(s)
  {
    hide OpensData, Find;
    var lim := if MAX_SELF_CLOSE < |s| then MAX_SELF_CLOSE else |s|;
    var lim' := if MAX_SELF_CLOSE < |s + b| then MAX_SELF_CLOSE else |s + b|;
    var e := Find(s[..lim], CLOSE_SELF, 0);
    FindFirst(s[..lim], CLOSE_SELF, 0);
    SliceOfSlice(s, 0, lim, e, e + 2);
    assert s[..lim] == s[0..lim];
    OpensDataStable(s, b, e);
    FindExtends(s[..lim], (s + b)[lim..lim'], CLOSE_SELF);
    WindowGrows(s, b, lim, lim');
    FindExtends(s[1..], b, "<");
    assert (s + b)[1..] == s[1..] + b;
  }

  lemma TagStable(s: Bytes, b: Bytes)
    requires s != [] && ScanTag(s).Some?
    ensures ScanTag(s + b) == ScanTag(s)
  {
    if OpensData(s) {
      FindExtends(s, b, CLOSE_DATA);
      assert (s + b)[..6] == s[..6];
    } else {
      SelfTagStable(s, b);
    }
  }

  /** Text without a tag opener in front of a tag is skipped. */
  lemma SkipsTo(j: Bytes, s: Bytes)
    requires '<' !in j && s != [] && s[0] == '<'
    ensures ScanFirst(j + s) == match ScanTag(s)
                                case None => Stuck(|j|)
                                case Some(len) => Packet(|j|, |j| + len)
  {
    hide ScanTag;
    forall k | 0 <= k < |j| ensures !At(j + s, "<", k) {
      assert (j + s)[k..k + 1] == [j[k]];
    }
    assert (j + s)[|j|..|j| + 1] == "<";
    FindIs(j + s, "<", 0, |j|);
    assert (j + s)[|j|..] == s;
  }

  /** One unfolding of the split. */
  lemma SplitStep(s: Bytes)
    ensures
      var r := ScanFirst(s);
      && (r.Packet? ==> Packets(s) == [s[r.start..r.end]] + Packets(s[r.end..]) && Rest(s) == Rest(s[r.end..]))
      && (r.Stuck? ==> Packets(s) == [] && Rest(s) == s[r.start..])
      && (r.NoTag? ==> Packets(s) == [] && Rest(s) == s)
  {
    hide ScanFirst;
  }

  lemma SkipsJunk(j: Bytes, s: Bytes)
    requires '<' !in j && s != [] && s[0] == '<'
    ensures Packets(j + s) == Packets(s) && Rest(j + s) == Rest(s)
  {
    hide ScanTag, ScanFirst, Packets, Rest;
    SkipsTo(j, s);
    SkipsTo([], s);
    assert [] + s == s;
    if ScanTag(s).Some? {
      SameCut(j, s, ScanTag(s).value);
    } else {
      SplitStep(j + s);
      SplitStep(s);
      assert (j + s)[|j|..] == s[0..];
    }
  }

  lemma CutFirst(s: Bytes, st: nat, en: nat)
    requires ScanFirst(s) == Packet(st, en)
    ensures Packets(s) == [s[st..en]] + Packets(s[en..]) && Rest(s) == Rest(s[en..])
  {
  }

  lemma SameCut(j: Bytes, s: Bytes, len: nat)
    requires len <= |s| && ScanFirst(s) == Packet(0, len) && ScanFirst(j + s) == Packet(|j|, |j| + len)
    ensures Packets(j + s) == Packets(s) && Rest(j + s) == Rest(s)
  {
    hide ScanFirst, Packets, Rest;
    CutFirst(j + s, |j|, |j| + len);
    CutFirst(s, 0, len);
    SlicesBehind(j, s, len);
  }

  /** A split position is where the first tag opens. */
  lemma FirstTag(s: Bytes)
    requires !ScanFirst(s).NoTag?
    ensures s[ScanFirst(s).start] == '<' && '<' !in s[..ScanFirst(s).start]
  {
    hide ScanTag, Find, At;
    FirstOpener(s);
  }

  lemma FirstOpener(s: Bytes)
    ensures var st := Find(s, "<", 0); st != -1 ==> s[st] == '<' && '<' !in s[..st]
  {
    FindFirst(s, "<", 0);
    var st := Find(s, "<", 0);
    if st != -1 {
      assert s[st..st + 1] == [s[st]];
      forall k | 0 <= k < st ensures s[k] != '<' {
        assert !At(s, "<", k);
        assert s[k..k + 1] == [s[k]];
      }
    }
  }

  lemma WaitAt(s: Bytes, b: Bytes)
    requires ScanFirst(s).Stuck?
    ensures Packets(s) == [] && Packets(s + b) == Packets(Rest(s) + b)
    ensures Rest(s + b) == Rest(Rest(s) + b)
  {
    hide ScanTag;
    FirstTag(s);
    var st := ScanFirst(s).start;
    assert s + b == s[..st] + (s[st..] + b);
    SkipsJunk(s[..st], s[st..] + b);
  }

  /** Splitting is a homomorphism: cutting `a`, carrying its rest over and cutting
      that together with `b` gives exactly what cutting `a + b` gives. */
  lemma {:induction false} ChunkingIndependence(a: Bytes, b: Bytes)
    ensures Packets(a + b) == Packets(a) + Packets(Rest(a) + b)
    ensures Rest(a + b) == Rest(Rest(a) + b)
    decreases |a|
  {
    hide ScanTag, ScanFirst;
    match ScanFirst(a)
    case NoTag =>
    case Stuck(_) =>
      WaitAt(a, b);
    case Packet(st, en) =>
      hide Packets, Rest;
      CutStable(a, b);
      CutFirst(a, st, en);
      CutFirst(a + b, st, en);
      assert (a + b)[st..en] == a[st..en] && (a + b)[en..] == a[en..] + b;
      ChunkingIndependence(a[en..], b);
  }

  lemma CutStable(a: Bytes, b: Bytes)
    requires ScanFirst(a).Packet?
    ensures ScanFirst(a + b) == ScanFirst(a)
  {
    var st := ScanFirst(a).start;
    FirstTag(a);
    TagStable(a[st..], b);
    assert a + b == a[..st] + (a[st..] + b);
    assert a == a[..st] + a[st..];
    hide ScanTag;
    SkipsTo(a[..st], a[st..] + b);
    SkipsTo(a[..st], a[st..]);
  }

  // ---------- What a packet is, and the round trip ----------

  /** `pat` ends `s` and occurs nowhere earlier in it. */
  predicate EndsFirstWith(s: Bytes, pat: Bytes) {
    At(s, pat, |s| - |pat|) && forall k :: 0 <= k < |s| - |pat| ==> !At(s, pat, k)
  }

  predicate DataElement(p: Bytes) {
    OpensData(p) && EndsFirstWith(p, CLOSE_DATA)
  }

  /** A self-closing tag short enough to be recognised, with no tag opener inside. */
  predicate SelfClosing(p: Bytes) {
    && p != [] && p[0] == '<' && '<' !in p[1..] && |p| <= MAX_SELF_CLOSE
    && !OpensData(p) && EndsFirstWith(p, CLOSE_SELF)
  }

  predicate WellFormed(p: Bytes) {
    DataElement(p) || SelfClosing(p)
  }

  lemma OpenerOccurs(s: Bytes)
    ensures ('<' in s) <==> Find(s, "<", 0) != -1
  {
    FindFirst(s, "<", 0);
    var r := Find(s, "<", 0);
    if r != -1 {
      assert s[r..r + 1][0] == '<';
    } else {
      forall k | 0 <= k < |s| ensures s[k] != '<' {
        assert !At(s, "<", k);
        assert s[k..k + 1] == [s[k]];
      }
    }
  }

  /** A well-formed packet is cut out whole, whatever follows it. */
  lemma CutsWhole(p: Bytes, rest: Bytes)
    requires WellFormed(p)
    ensures p[0] == '<' && ScanTag(p + rest) == Some(|p|)
  {
    if DataElement(p) {
      FindIs(p, CLOSE_DATA, 0, |p| - 7);
    } else {
      assert p[..|p|] == p;
      FindIs(p, CLOSE_SELF, 0, |p| - 2);
      OpenerOccurs(p[1..]);
    }
    TagStable(p, rest);
  }

  lemma ClosesLater(s: Bytes, e: nat)
    requires OpensData(s) && At(s, CLOSE_DATA, e)
    ensures e >= 6
  {
    var close := s[e..e + 7];
    assert close[0] == s[e] == '<' && close[1] == s[e + 1] == '/';
    var open := s[..6];
    assert forall k :: 1 <= k < 6 ==> open[k] == s[k] != '<' && s[k] != '/';
  }

  lemma DataCutIsWellFormed(s: Bytes)
    requires OpensData(s) && ScanTag(s).Some?
    ensures DataElement(s[..ScanTag(s).value])
  {
    var e := Find(s, CLOSE_DATA, 0);
    FindFirst(s, CLOSE_DATA, 0);
    hide At, Find;
    ClosesLater(s, e);
    assert s[..e + 7][..6] == s[..6];
    Inherits(s, e + 7, CLOSE_DATA, e);
  }

  lemma SelfCutIsWellFormed(s: Bytes)
    requires s != [] && s[0] == '<' && !OpensData(s) && ScanTag(s).Some?
    ensures SelfClosing(s[..ScanTag(s).value])
  {
    var len := ScanTag(s).value;
    var p := s[..len];
    var lim := if MAX_SELF_CLOSE < |s| then MAX_SELF_CLOSE else |s|;
    var e := Find(s[..lim], CLOSE_SELF, 0);
    FindFirst(s[..lim], CLOSE_SELF, 0);
    assert s[..lim][..len] == p;
    Inherits(s[..lim], len, CLOSE_SELF, e);
    assert p + s[len..] == s;
    OpensDataStable(p, s[len..], e);
    FindExtends(p[1..], s[len..], "<");
    assert p[1..] + s[len..] == s[1..];
    OpenerOccurs(p[1..]);
  }

  lemma Inherits(s: Bytes, len: nat, pat: Bytes, e: nat)
    requires len <= |s| && e + |pat| == len && At(s, pat, e)
    requires forall k :: 0 <= k < e ==> !At(s, pat, k)
    ensures EndsFirstWith(s[..len], pat)
  {
    forall k | 0 <= k <= e ensures At(s[..len], pat, k) == At(s, pat, k) {
      assert s[..len][k..k + |pat|] == s[k..k + |pat|];
    }
  }

  /** Conversely whatever is cut out is well formed. */
  lemma CutIsWellFormed(s: Bytes)
    requires s != [] && s[0] == '<' && ScanTag(s).Some?
    ensures WellFormed(s[..ScanTag(s).value])
  {
    hide ScanTag, DataElement, SelfClosing;
    if OpensData(s) {
      DataCutIsWellFormed(s);
    } else {
      SelfCutIsWellFormed(s);
    }
  }

  /** Only well-formed packets are ever emitted. */
  lemma {:induction false} EmitsWellFormed(s: Bytes)
    ensures forall p <- Packets(s) :: WellFormed(p)
    decreases |s|
  {
    hide ScanTag, WellFormed;
    match ScanFirst(s)
    case Packet(st, en) =>
      FirstTag(s);
      CutIsWellFormed(s[st..]);
      assert s[st..][..en - st] == s[st..en];
      CutFirst(s, st, en);
      EmitsWellFormed(s[en..]);
    case _ =>
  }

  /** One step of the round trip: leading junk and one packet. */
  lemma CutsAfterJunk(j: Bytes, p: Bytes, rest: Bytes)
    requires '<' !in j && WellFormed(p)
    ensures Packets(j + p + rest) == [p] + Packets(rest)
    ensures Rest(j + p + rest) == Rest(rest)
  {
    hide ScanTag, ScanFirst, WellFormed;
    CutsWhole(p, rest);
    assert j + p + rest == j + (p + rest);
    SkipsTo(j, p + rest);
    CutFirst(j + p + rest, |j|, |j| + |p|);
    assert (j + p + rest)[|j|..|j| + |p|] == p && (j + p + rest)[|j| + |p|..] == rest;
  }

  lemma Tagless(s: Bytes)
    requires '<' !in s
    ensures Packets(s) == [] && Rest(s) == s
  {
    hide ScanTag;
    OpenerOccurs(s);
  }

  /** A stream of packets, each with the junk that comes before it. */
  function Stream(items: seq<(Bytes, Bytes)>): Bytes {
    if items == [] then [] else items[0].0 + items[0].1 + Stream(items[1..])
  }

  function Second(items: seq<(Bytes, Bytes)>): (r: seq<Bytes>)
    ensures |r| == |items| && forall k :: 0 <= k < |r| ==> r[k] == items[k].1
  {
    seq(|items|, k requires 0 <= k < |items| => items[k].1)
  }

  /** Splitting inverts streaming, whatever opener-free junk lies in between. */
  lemma {:induction false} RoundTrip(items: seq<(Bytes, Bytes)>, tail: Bytes)
    requires forall it <- items :: '<' !in it.0 && WellFormed(it.1)
    requires '<' !in tail
    ensures Packets(Stream(items) + tail) == Second(items)
    ensures Rest(Stream(items) + tail) == tail
  {
    hide WellFormed, Packets, Rest;
    if items == [] {
      assert Stream(items) + tail == tail;
      Tagless(tail);
    } else {
      var rest := Stream(items[1..]) + tail;
      assert Stream(items) + tail == items[0].0 + items[0].1 + rest;
      CutsAfterJunk(items[0].0, items[0].1, rest);
      RoundTrip(items[1..], tail);
    }
  }

  lemma {:induction false} ReframesLines(j: Bytes, ps: seq<Bytes>)
    requires '<' !in j && forall p <- ps :: WellFormed(p)
    ensures Packets(j + Lines(ps)) == ps
    decreases ps
  {
    hide WellFormed, Packets;
    if ps == [] {
      Tagless(j + Lines(ps));
    } else {
      var rest := NEWLINE + Lines(ps[1..]);
      assert j + Lines(ps) == j + ps[0] + rest;
      CutsAfterJunk(j, ps[0], rest);
      ReframesLines(NEWLINE, ps[1..]);
    }
  }

  // ---------- Single packets, letter by letter ----------

  /** A Data element, with attributes or without, is emitted as soon as it is closed,
      whatever follows it. */
  lemma DataIsEmitted(p: Bytes, rest: Bytes)
    requires "<Data " <= p || "<Data>" <= p
    requires EndsFirstWith(p, "</Data>")
    ensures Packets(p) == [p] && Rest(p) == []
    ensures Packets(p + rest) == [p] + Packets(rest) && Rest(p + rest) == Rest(rest)
  {
    WholeIsEmitted(p, rest);
  }

  /** So is a self-closing tag of at most 256 bytes with no other tag inside that does not
      begin like a Data element. */
  lemma SelfClosingIsEmitted(p: Bytes, rest: Bytes)
    requires p != [] && p[0] == '<' && '<' !in p[1..] && !("<Data " <= p) && !("<Data>" <= p)
    requires EndsFirstWith(p, "/>") && |p| <= 256
    ensures Packets(p) == [p] && Rest(p) == []
    ensures Packets(p + rest) == [p] + Packets(rest) && Rest(p + rest) == Rest(rest)
  {
    WholeIsEmitted(p, rest);
  }

  lemma WholeIsEmitted(p: Bytes, rest: Bytes)
    requires WellFormed(p)
    ensures Packets(p) == [p] && Rest(p) == []
    ensures Packets(p + rest) == [p] + Packets(rest) && Rest(p + rest) == Rest(rest)
  {
    hide WellFormed, Packets, Rest;
    CutsAfterJunk([], p, rest);
    CutsAfterJunk([], p, []);
    Tagless([]);
    assert [] + p + rest == p + rest && [] + p + [] == p;
  }

  lemma OpensDataIs(p: Bytes)
    ensures OpensData(p) <==> "<Data " <= p || "<Data>" <= p
  {
  }

  /** Re-framing what has already been framed changes nothing. */
  lemma Idempotent(s: Bytes)
    ensures Lines(Packets(Lines(Packets(s)))) == Lines(Packets(s))
  {
    EmitsWellFormed(s);
    ReframesLines([], Packets(s));
    assert [] + Lines(Packets(s)) == Lines(Packets(s));
  }

  // ---------- When the stream is wedged for good ----------

  /** The carried-over tag is one no continuation can complete: not a Data element,
      and a second tag opens inside it or it has outgrown the 256-byte window. */
  predicate Blocked(tag: Bytes) {
    && tag != [] && tag[0] == '<' && ScanTag(tag).None? && !OpensData(tag)
    && ('<' in tag[1..] || |tag| >= MAX_SELF_CLOSE
        || (|tag| == MAX_SELF_CLOSE - 1 && tag[|tag| - 1] != '/'))
  }

  lemma OpensLater(tag: Bytes, b: Bytes)
    requires tag != [] && !OpensData(tag)
    requires '<' in tag[1..] || |tag| >= 6 || (b != [] && b[0] == '/')
    ensures !OpensData(tag + b)
  {
    var all := tag + b;
    if |tag| >= 6 {
      assert all[..6] == tag[..6];
    } else {
      var k := if '<' in tag[1..] then (var k :| 1 <= k < |tag| && tag[k] == '<'; k) else |tag|;
      assert all[k] == '<' || all[k] == '/';
      assert "<Data "[k] != all[k] && "<Data>"[k] != all[k];
    }
  }

  /** Where the closing of a blocked tag could be found, it is too late. */
  lemma ClosesTooLate(tag: Bytes, b: Bytes, lim': nat)
    requires Blocked(tag) && lim' == if MAX_SELF_CLOSE < |tag + b| then MAX_SELF_CLOSE else |tag + b|
    ensures
      var e, next := Find((tag + b)[..lim'], CLOSE_SELF, 0), Find((tag + b)[1..], "<", 0);
      e == -1 || (next != -1 && 1 + next < e + 2)
  {
    hide OpensData, At, Find;
    var all := tag + b;
    var lim := if MAX_SELF_CLOSE < |tag| then MAX_SELF_CLOSE else |tag|;
    WindowGrows(tag, b, lim, lim');
    FindExtends(tag[..lim], all[lim..lim'], CLOSE_SELF);
    assert all[1..] == tag[1..] + b;
    FindExtends(tag[1..], b, "<");
    OpenerOccurs(tag[1..]);
    var e := Find(all[..lim'], CLOSE_SELF, 0);
    if e == MAX_SELF_CLOSE - 2 && |tag| == MAX_SELF_CLOSE - 1 {
      ClosedAt(all, lim');
    }
  }

  lemma ClosedAt(s: Bytes, lim: nat)
    requires lim <= |s| && Find(s[..lim], CLOSE_SELF, 0) != -1
    ensures var e := Find(s[..lim], CLOSE_SELF, 0); e < |s| && s[e] == '/'
  {
    FindFirst(s[..lim], CLOSE_SELF, 0);
    var e := Find(s[..lim], CLOSE_SELF, 0);
    assert s[..lim][e..e + 2][0] == s[e];
  }

  lemma BlockedForGood(tag: Bytes, b: Bytes)
    requires Blocked(tag)
    ensures ScanTag(tag + b).None?
  {
    hide OpensData, Find;
    OpensLater(tag, b);
    ClosesTooLate(tag, b, if MAX_SELF_CLOSE < |tag + b| then MAX_SELF_CLOSE else |tag + b|);
  }

  lemma SlashIn(s: Bytes)
    ensures Find(s, CLOSE_SELF, 0) != -1 ==> '/' in s
  {
    FindFirst(s, CLOSE_SELF, 0);
    var e := Find(s, CLOSE_SELF, 0);
    if e != -1 {
      assert s[e..e + 2][0] == s[e];
    }
  }

  /** The least of them: after a tag opener inside a tag, nothing is ever delivered. */
  lemma BlockedExample(b: Bytes)
    ensures Blocked("<a<") && Packets("<a<" + b) == []
  {
    var t: Bytes := "<a<";
    assert t[0] == '<' && t[2] == '<' && t[1..][1] == '<';
    assert !OpensData(t);
    assert t[..3] == t;
    SlashIn(t);
    BlockedForGood(t, b);
    SkipsTo([], t + b);
    assert [] + (t + b) == t + b;
    SplitStep(t + b);
  }

  /** What is found in a front part of the text occurs in the text. */
  lemma FoundEarly(p: Bytes, lim: nat)
    requires lim <= |p|
    ensures var e := Find(p[..lim], "/>", 0); e != -1 ==> e + 2 <= lim && At(p, "/>", e)
  {
    FindFirst(p[..lim], "/>", 0);
    var e := Find(p[..lim], "/>", 0);
    if e != -1 {
      SliceOfSlice(p, 0, lim, e, e + 2);
      assert p[0..lim] == p[..lim];
    }
  }

  /** One byte more is too long: nothing is emitted. */
  lemma TooLongIsStuck(p: Bytes)
    requires p != [] && p[0] == '<' && '<' !in p[1..] && !("<Data " <= p) && !("<Data>" <= p)
    requires EndsFirstWith(p, "/>") && |p| > 256
    ensures forall rest :: Packets(p + rest) == []
  {
    hide OpensData;
    FoundEarly(p, 256);
    OpensDataIs(p);
    forall rest
      ensures Packets(p + rest) == []
    {
      BlockedForGood(p, rest);
      SkipsTo([], p + rest);
      assert [] + (p + rest) == p + rest;
      SplitStep(p + rest);
    }
  }

  /** A continuation that completes a tag which is not blocked. */
  function Completion(tag: Bytes): Bytes
    requires tag != []
  {
    if OpensData(tag) then CLOSE_DATA
    else if tag[|tag| - 1] == '/' then ">"
    else CLOSE_SELF
  }

  lemma CompletesData(tag: Bytes)
    requires OpensData(tag)
    ensures ScanTag(tag + CLOSE_DATA).Some?
  {
    var all := tag + CLOSE_DATA;
    assert all[..6] == tag[..6];
    EndsWithFound(tag, CLOSE_DATA);
  }

  /** What is appended is found. */
  lemma EndsWithFound(s: Bytes, pat: Bytes)
    ensures Find(s + pat, pat, 0) != -1
  {
    FindFirst(s + pat, pat, 0);
    assert At(s + pat, pat, |s|);
  }

  lemma CompletesSelf(tag: Bytes, b: Bytes)
    requires tag != [] && tag[0] == '<' && ScanTag(tag).None? && !OpensData(tag)
    requires '<' !in tag[1..] && |tag + b| <= MAX_SELF_CLOSE
    requires (b == ">" && |tag| > 1 && tag[|tag| - 1] == '/') || (b == CLOSE_SELF && tag[|tag| - 1] != '/')
    ensures ScanTag(tag + b).Some?
  {
    var all := tag + b;
    assert !OpensData(all) by {
      if b == ">" {
        OpensLater(tag[..|tag| - 1], CLOSE_SELF);
        assert tag[..|tag| - 1] + CLOSE_SELF == all;
      } else {
        OpensLater(tag, b);
      }
    }
    hide OpensData, Find, At;
    OpenerOccurs(all[1..]);
    assert all[1..] == tag[1..] + b;
    assert all[..|all|] == all;
    if b == ">" {
      assert all == tag[..|tag| - 1] + CLOSE_SELF;
      EndsWithFound(tag[..|tag| - 1], CLOSE_SELF);
    } else {
      EndsWithFound(tag, CLOSE_SELF);
    }
  }

  lemma Completes(tag: Bytes)
    requires tag != [] && tag[0] == '<' && ScanTag(tag).None? && !Blocked(tag)
    ensures ScanTag(tag + Completion(tag)).Some?
  {
    if OpensData(tag) {
      CompletesData(tag);
    } else {
      hide ScanTag;
      CompletesSelf(tag, Completion(tag));
    }
  }

  /** Nothing more ever comes out of the stream, whatever else arrives, exactly when
      the carried tag is blocked. */
  lemma WedgedIff(s: Bytes)
    ensures (forall b :: Packets(s + b) == Packets(s)) <==> Blocked(Rest(s))
  {
    hide ScanTag, ScanFirst, OpensData;
    RestShape(s);
    var r := Rest(s);
    forall b
      ensures Packets(s + b) == Packets(s) + Packets(r + b)
      ensures Blocked(r) ==> Packets(r + b) == []
    {
      ChunkingIndependence(s, b);
      if Blocked(r) {
        BlockedForGood(r, b);
        SkipsTo([], r + b);
        assert [] + (r + b) == r + b;
      }
    }
    if !Blocked(r) {
      var b := if '<' in r then Completion(r) else "<a/>";
      var j, tag := if '<' in r then [] else r, if '<' in r then r + b else b;
      if '<' in r {
        Completes(r);
      } else {
        ShortTag();
      }
      SkipsTo(j, tag);
      assert j + tag == r + b;
      assert Packets(r + b) != [];
    }
  }

  lemma ShortTag()
    ensures ScanTag("<a/>").Some?
  {
    CutsWhole("<a/>", []) by {
      var p := "<a/>";
      assert p[2..4] == CLOSE_SELF && p[0..2] == "<a" && p[1..3] == "a/";
      assert SelfClosing(p);
    }
    assert "<a/>" + [] == "<a/>";
  }

  /** The rest is either opener-free or an incomplete tag. */
  lemma {:induction false} RestShape(s: Bytes)
    ensures var r := Rest(s); '<' !in r || (r[0] == '<' && ScanTag(r).None?)
    decreases |s|
  {
    hide ScanTag;
    match ScanFirst(s)
    case NoTag => OpenerOccurs(s);
    case Stuck(st) => FirstTag(s);
    case Packet(st, en) =>
      CutFirst(s, st, en);
      RestShape(s[en..]);
  }
}
