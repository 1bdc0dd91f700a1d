/** The LDAP filter evaluator (transport/fake/filter.go): recursive descent over
    the text of a filter, against an abstract syntax printed per section 3 of
    RFC 4515.  How an object stores an attribute is a parameter: a lookup from
    attribute name to the stored value, if there is one. */
module Filter {
  import opened Common
  import opened Search
  import opened Strings
  import opened Wildcard

  type Lookup = string -> Option<string>

  datatype FilterError = Malformed | Unbalanced | UnsupportedAssertion

  // ---------- Escaping ----------

  function FromHex(c: char): (r: int)
    ensures -1 <= r < 16
  {
    if '0' <= c <= '9' then c as int - '0' as int
    else if 'a' <= c <= 'f' then c as int - 'a' as int + 10
    else if 'A' <= c <= 'F' then c as int - 'A' as int + 10
    else -1
  }

  /** Hex digits of either case, by code points, and nothing else. */
  lemma FromHexIs(c: char)
    ensures
      var n := c as int;
      FromHex(c) == if 48 <= n <= 57 then n - 48 else if 65 <= n <= 70 then n - 55
                    else if 97 <= n <= 102 then n - 87 else -1
  {
  }

  function Byte(hi: int, lo: int): char
    requires 0 <= hi < 16 && 0 <= lo < 16
  {
    (hi * 16 + lo) as char
  }

  predicate IsEscape(s: string, i: nat) {
    i + 2 < |s| && s[i] == '\\' && FromHex(s[i + 1]) >= 0 && FromHex(s[i + 2]) >= 0
  }

  function Unescape(s: string): string {
    if s == [] then []
    else if IsEscape(s, 0) then [Byte(FromHex(s[1]), FromHex(s[2]))] + Unescape(s[3..])
    else [s[0]] + Unescape(s[1..])
  }

  method UnescapeFilterValue(s: string) returns (b: string)
    ensures b == Unescape(s)
  {
    if !ContainsChar(s, '\\') {
      NothingEscaped(s);
      return s;
    }
    hide Unescape, FromHex;
    b := "";
    var i := 0;
    assert s[0..] == s;
    while i < |s|
      invariant 0 <= i <= |s| && b + Unescape(s[i..]) == Unescape(s)
    {
      UnescapeStep(s, i, b);
      if s[i] == '\\' && i + 2 <= |s| - 1 {
        var hi, lo := FromHex(s[i + 1]), FromHex(s[i + 2]);
        if hi >= 0 && lo >= 0 {
          b := b + [Byte(hi, lo)];
          i := i + 3;
          continue;
        }
      }
      b := b + [s[i]];
      i := i + 1;
    }
    NothingEscaped(s[i..]);
  }

  lemma UnescapeStep(s: string, i: nat, b: string)
    requires i < |s|
    ensures IsEscape(s, i) ==>
              b + Unescape(s[i..]) == (b + [Byte(FromHex(s[i + 1]), FromHex(s[i + 2]))]) + Unescape(s[i + 3..])
    ensures !IsEscape(s, i) ==> b + Unescape(s[i..]) == (b + [s[i]]) + Unescape(s[i + 1..])
  {
    hide FromHex;
    var t := s[i..];
    assert IsEscape(t, 0) <==> IsEscape(s, i);
    assert t[1..] == s[i + 1..];
    if IsEscape(s, i) {
      assert t[3..] == s[i + 3..];
    }
  }

  predicate ContainsChar(s: string, c: char) {
    c in s
  }

  lemma {:induction false} NothingEscaped(s: string)
    requires '\\' !in s
    ensures Unescape(s) == s
  {
    if s != [] {
      NothingEscaped(s[1..]);
    }
  }

  /** The characters section 3 of RFC 4515 requires to be written in hex. */
  function EscapeChar(c: char): string {
    match c
    case '*' => "\\2a"
    case '(' => "\\28"
    case ')' => "\\29"
    case '\\' => "\\5c"
    case '\0' => "\\00"
    case _ => [c]
  }

  function Escape(s: string): string {
    if s == [] then [] else EscapeChar(s[0]) + Escape(s[1..])
  }

  lemma UnescapeOne(c: char, rest: string)
    ensures Unescape(EscapeChar(c) + rest) == [c] + Unescape(rest)
  {
    var e := EscapeChar(c);
    var s := e + rest;
    if |e| == 3 {
      assert s[3..] == rest && s[0] == e[0] && s[1] == e[1] && s[2] == e[2];
    } else {
      assert s[1..] == rest;
    }
  }

  lemma {:induction false} UnescapeInverts(s: string, rest: string)
    ensures Unescape(Escape(s) + rest) == s + Unescape(rest)
  {
    hide Unescape, EscapeChar;
    if s == [] {
      assert Escape(s) + rest == rest && s + Unescape(rest) == Unescape(rest);
    } else {
      UnescapeInverts(s[1..], rest);
      UnescapeOne(s[0], Escape(s[1..]) + rest);
      assert Escape(s) + rest == EscapeChar(s[0]) + (Escape(s[1..]) + rest);
      assert s + Unescape(rest) == [s[0]] + (s[1..] + Unescape(rest));
    }
  }

  lemma {:induction false} EscapeIsPlain(s: string)
    ensures '(' !in Escape(s) && ')' !in Escape(s) && '*' !in Escape(s)
  {
    if s != [] {
      EscapeIsPlain(s[1..]);
    }
  }

  // ---------- Splitting a run of sub-filters ----------

  /** The scan of `s` from `i` on, at nesting `depth`, the open part beginning at `start`. */
  function SplitAt(s: string, i: nat, depth: nat, start: int): (r: Result<seq<string>, FilterError>)
    requires i <= |s| && (depth > 0 ==> 0 <= start < i)
    ensures r.Ok? ==> forall p <- r.value :: |p| <= |s|
    decreases |s| - i
  {
    if i == |s| then
      if depth != 0 then Err(Unbalanced) else Ok([])
    else if s[i] == '(' then SplitAt(s, i + 1, depth + 1, if depth == 0 then i else start)
    else if s[i] != ')' then SplitAt(s, i + 1, depth, start)
    else if depth == 0 then Err(Unbalanced)
    else if depth > 1 then SplitAt(s, i + 1, depth - 1, start)
    else match SplitAt(s, i + 1, 0, start)
      case Ok(parts) => Ok([s[start..i + 1]] + parts)
      case Err(e) => Err(e)
  }

  function Split(s: string): (r: Result<seq<string>, FilterError>)
    ensures r.Ok? ==> r.value != [] && forall p <- r.value :: |p| <= |s|
  {
    match SplitAt(s, 0, 0, -1)
    case Ok(parts) => if parts == [] then Err(Unbalanced) else Ok(parts)
    case Err(e) => Err(e)
  }

  function Prepend(done: seq<string>, r: Result<seq<string>, FilterError>): Result<seq<string>, FilterError> {
    if r.Ok? then Ok(done + r.value) else r
  }

  method SplitFilters(s: string) returns (r: Result<seq<string>, FilterError>)
    ensures r == Split(s)
  {
    var parts: seq<string> := [];
    var depth, start := 0, -1;
    PrependNothing(SplitAt(s, 0, 0, -1));
    for i := 0 to |s|
      invariant depth >= 0 && (depth > 0 ==> 0 <= start < i)
      invariant Prepend(parts, SplitAt(s, i, depth, start)) == SplitAt(s, 0, 0, -1)
    {
      if s[i] == '(' {
        if depth == 0 {
          start := i;
        }
        depth := depth + 1;
      } else if s[i] == ')' {
        depth := depth - 1;
        if depth == 0 {
          PrependOne(parts, s[start..i + 1], SplitAt(s, i + 1, 0, start));
          parts := parts + [s[start..i + 1]];
        }
        if depth < 0 {
          return Err(Unbalanced);
        }
      }
    }
    if depth != 0 || |parts| == 0 {
      return Err(Unbalanced);
    }
    assert Prepend(parts, Ok([])) == Ok(parts) by {
      assert parts + [] == parts;
    }
    return Ok(parts);
  }

  lemma PrependNothing(r: Result<seq<string>, FilterError>)
    ensures Prepend([], r) == r
  {
    if r.Ok? {
      assert [] + r.value == r.value;
    }
  }

  lemma PrependOne(done: seq<string>, p: string, r: Result<seq<string>, FilterError>)
    ensures Prepend(done + [p], r) == Prepend(done, if r.Ok? then Ok([p] + r.value) else r)
  {
    if r.Ok? {
      assert (done + [p]) + r.value == done + ([p] + r.value);
    }
  }

  // ---------- Evaluation ----------

  predicate IsSpace(c: char) {
    c == ' ' || c == '\t' || c == '\n' || c == '\r' || c == 11 as char || c == 12 as char
  }

  function TrimSpace(s: string): (r: string)
    ensures |r| <= |s|
  {
    if s == [] then []
    else if IsSpace(s[0]) then TrimSpace(s[1..])
    else if IsSpace(s[|s| - 1]) then TrimSpace(s[..|s| - 1])
    else s
  }

  lemma TrimsFront(c: char, s: string)
    requires c in " \t\n\r" || c as int == 11 || c as int == 12
    ensures TrimSpace([c] + s) == TrimSpace(s)
  {
    assert ([c] + s)[1..] == s;
  }

  lemma {:induction false} TrimsBack(s: string, c: char)
    requires c in " \t\n\r" || c as int == 11 || c as int == 12
    ensures TrimSpace(s + [c]) == TrimSpace(s)
  {
    if s == [] {
      assert s + [c] == [c] && [c][1..] == [];
    } else if IsSpace(s[0]) {
      assert (s + [c])[1..] == s[1..] + [c];
      TrimsBack(s[1..], c);
    } else {
      assert (s + [c])[..|s|] == s;
    }
  }

  predicate Operator(c: char) {
    c == '~' || c == '>' || c == '<' || c == ':'
  }

  function MatchItem(look: Lookup, item: string): Result<bool, FilterError> {
    var eq := Find(item, "=", 0);
    if eq <= 0 || Operator(item[eq - 1]) then Err(UnsupportedAssertion)
    else
      var pattern := Unescape(item[eq + 1..]);
      var value := look(item[..eq]);
      Ok(if pattern == "*" then value.Some?
         else value.Some? && Holds(value.value, pattern))
  }

  /** strings.EqualFold for a literal, the wildcard match otherwise. */
  predicate Holds(value: string, pattern: string) {
    if '*' in pattern then Glob(Fold(pattern), Fold(value)) else Fold(value) == Fold(pattern)
  }

  function MatchFilter(look: Lookup, filter: string): Result<bool, FilterError>
    decreases |filter|, 0
  {
    var f := TrimSpace(filter);
    if f == [] || f[0] != '(' || f[|f| - 1] != ')' then Err(Malformed)
    else
      var inner := f[1..|f| - 1];
      if inner != [] && (inner[0] == '&' || inner[0] == '|') then
        match Split(inner[1..])
        case Err(e) => Err(e)
        case Ok(parts) => MatchParts(look, inner[0], parts, |inner|)
      else if inner != [] && inner[0] == '!' then
        match MatchFilter(look, inner[1..])
        case Err(e) => Err(e)
        case Ok(m) => Ok(!m)
      else MatchItem(look, inner)
  }

  /** Left to right, stopping at the first part that decides. */
  function MatchParts(look: Lookup, op: char, parts: seq<string>, bound: nat): Result<bool, FilterError>
    requires forall p <- parts :: |p| < bound
    decreases bound, |parts|
  {
    if parts == [] then Ok(op == '&')
    else
      match MatchFilter(look, parts[0])
      case Err(e) => Err(e)
      case Ok(m) =>
        if op == '&' && !m then Ok(false)
        else if op == '|' && m then Ok(true)
        else MatchParts(look, op, parts[1..], bound)
  }

  // ---------- The evaluator as it runs ----------

  method Item(look: Lookup, item: string) returns (r: Result<bool, FilterError>)
    ensures r == MatchItem(look, item)
  {
    hide Glob, Unescape, Find, Fold;
    var eq := Find(item, "=", 0);
    if eq <= 0 {
      return Err(UnsupportedAssertion);
    }
    var c := item[eq - 1];
    if c == '~' || c == '>' || c == '<' || c == ':' {
      return Err(UnsupportedAssertion);
    }
    var pattern := UnescapeFilterValue(item[eq + 1..]);
    var value := look(item[..eq]);
    if pattern == "*" {
      return Ok(value.Some?);
    }
    if value.None? {
      return Ok(false);
    }
    if !ContainsChar(pattern, '*') {
      return Ok(Fold(value.value) == Fold(pattern));
    }
    var m := MatchWildcard(value.value, pattern);
    return Ok(m);
  }

  method Match(look: Lookup, filter: string) returns (r: Result<bool, FilterError>)
    ensures r == MatchFilter(look, filter)
    decreases |filter|
  {
    hide Split, MatchItem;
    var f := TrimSpace(filter);
    if f == [] || f[0] != '(' || f[|f| - 1] != ')' {
      return Err(Malformed);
    }
    var inner := f[1..|f| - 1];
    if inner != [] && (inner[0] == '&' || inner[0] == '|') {
      var op := inner[0];
      var parts := SplitFilters(inner[1..]);
      if parts.Err? {
        return Err(parts.error);
      }
      var all := parts.value;
      for i := 0 to |all|
        invariant MatchParts(look, op, all, |inner|) == MatchParts(look, op, all[i..], |inner|)
      {
        var m := Match(look, all[i]);
        assert all[i..][1..] == all[i + 1..];
        if m.Err? {
          return m;
        }
        if op == '&' && !m.value {
          return Ok(false);
        }
        if op == '|' && m.value {
          return Ok(true);
        }
      }
      return Ok(op == '&');
    } else if inner != [] && inner[0] == '!' {
      var m := Match(look, inner[1..]);
      if m.Err? {
        return m;
      }
      return Ok(!m.value);
    }
    r := Item(look, inner);
  }

  // ---------- What is refused, and what is trimmed ----------

  /** White space around the text of a filter does not matter. */
  lemma SpaceIgnored(look: Lookup, c: char, f: string)
    requires c in " \t\n\r" || c as int == 11 || c as int == 12
    ensures MatchFilter(look, [c] + f) == MatchFilter(look, f)
    ensures MatchFilter(look, f + [c]) == MatchFilter(look, f)
  {
    hide TrimSpace, MatchItem, Split, MatchParts;
    TrimsFront(c, f);
    TrimsBack(f, c);
    SameTrimmed(look, [c] + f, f);
    SameTrimmed(look, f + [c], f);
  }

  lemma SameTrimmed(look: Lookup, f: string, g: string)
    requires TrimSpace(f) == TrimSpace(g)
    ensures MatchFilter(look, f) == MatchFilter(look, g)
  {
    hide TrimSpace, MatchItem, Split, MatchParts;
  }

  /** Assertions with "~=", ">=", "<=" or ":=", with nothing before "=" or without it, are
      refused, whatever the object. */
  lemma OtherAssertionsRefused(look: Lookup, attr: string, text: string)
    requires '=' !in attr
    ensures (attr == "" || attr[|attr| - 1] in "~><:") ==>
      MatchItem(look, attr + "=" + text) == Err(UnsupportedAssertion)
    ensures MatchItem(look, attr) == Err(UnsupportedAssertion)
  {
    var item := attr + "=" + text;
    assert item[|attr|..|attr| + 1] == "=";
    forall k | 0 <= k < |attr| ensures !At(item, "=", k) {
      assert item[k..k + 1] == [attr[k]];
    }
    FindIs(item, "=", 0, |attr|);
    assert attr != "" ==> item[|attr| - 1] == attr[|attr| - 1];
    NoEquals(attr);
  }

  lemma NoEquals(s: string)
    requires '=' !in s
    ensures Find(s, "=", 0) == -1
  {
    FindFirst(s, "=", 0);
    var r := Find(s, "=", 0);
    if r != -1 {
      HasEquals(s, r);
    }
  }

  lemma HasEquals(s: string, r: int)
    requires At(s, "=", r)
    ensures '=' in s
  {
    assert s[r..r + 1][0] == s[r];
  }

  /** Trimmed text that does not begin and end with a parenthesis is malformed. */
  lemma BareTextRefused(look: Lookup, f: string)
    requires TrimSpace(f) == f && (f == "" || f[0] != '(' || f[|f| - 1] != ')')
    ensures MatchFilter(look, f) == Err(Malformed)
  {
    hide TrimSpace, MatchItem, Split, MatchParts;
  }
}
