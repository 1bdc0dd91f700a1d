/** The -EncodedCommand form of a script (internal/adscript/encode.go): UTF-16
    (section 2 of RFC 2781), little-endian bytes, base64 (section 4 of RFC 4648). */
module EncodeCommand {
  import opened Common

  type Byte = b: nat | b < 0x100
  type Unit = u: nat | u < 0x1_0000
  type Rune = r: nat | r < 0xD800 || 0xE000 <= r < 0x11_0000

  const REPLACEMENT: Rune := 0xFFFD

  datatype DecodeError = CorruptInput | NotUtf16

  // ---------- UTF-16 ----------

  function EncodeRune(r: Rune): (us: seq<Unit>)
    ensures 1 <= |us| <= 2 && (|us| == 1 <==> r < 0x1_0000)
    ensures |us| == 1 ==> us == [r]
    ensures |us| == 2 ==>
      && 0xD800 <= us[0] < 0xDC00 <= us[1] < 0xE000
      && var high: int, low: int := us[0], us[1]; r == 0x1_0000 + 0x400 * (high - 0xD800) + (low - 0xDC00)
  {
    if r < 0x1_0000 then [r]
    else [0xD800 + (r - 0x1_0000) / 0x400, 0xDC00 + (r - 0x1_0000) % 0x400]
  }

  function Utf16(rs: seq<Rune>): seq<Unit> {
    if rs == [] then [] else EncodeRune(rs[0]) + Utf16(rs[1..])
  }

  predicate High(u: Unit) {
    0xD800 <= u < 0xDC00
  }

  predicate Low(u: Unit) {
    0xDC00 <= u < 0xE000
  }

  function Combined(high: int, low: int): Rune
    requires 0xD800 <= high < 0xDC00 <= low < 0xE000
  {
    (high - 0xD800) * 0x400 + (low - 0xDC00) + 0x1_0000
  }

  /** utf16.Decode: an unpaired surrogate becomes U+FFFD. */
  function FromUtf16(us: seq<Unit>): seq<Rune> {
    if us == [] then []
    else if High(us[0]) && |us| > 1 && Low(us[1]) then
      [Combined(us[0], us[1])] + FromUtf16(us[2..])
    else if High(us[0]) || Low(us[0]) then [REPLACEMENT] + FromUtf16(us[1..])
    else [us[0]] + FromUtf16(us[1..])
  }

  /** A surrogate that is not half of a pair decodes to U+FFFD, and decoding goes on with
      the next unit. */
  lemma LoneSurrogate(u: Unit, rest: seq<Unit>)
    requires 0xD800 <= u < 0xE000
    requires u >= 0xDC00 || rest == [] || !(0xDC00 <= rest[0] < 0xE000)
    ensures FromUtf16([u] + rest) == [0xFFFD] + FromUtf16(rest)
  {
    assert ([u] + rest)[1..] == rest;
    assert |[u] + rest| > 1 ==> ([u] + rest)[1] == rest[0];
  }

  lemma {:induction false} Utf16RoundTrip(rs: seq<Rune>)
    ensures FromUtf16(Utf16(rs)) == rs
  {
    if rs != [] {
      var us, rest := EncodeRune(rs[0]), Utf16(rs[1..]);
      Utf16RoundTrip(rs[1..]);
      assert (us + rest)[|us|..] == rest;
      assert (us + rest)[0] == us[0];
      if |us| == 2 {
        assert (us + rest)[1] == us[1];
        assert FromUtf16(us + rest) == [rs[0]] + FromUtf16(rest);
      }
    }
  }

  // ---------- Little-endian bytes ----------

  function LittleEndian(us: seq<Unit>): (bs: seq<Byte>)
    ensures |bs| == 2 * |us|
  {
    if us == [] then [] else LittleEndian(us[..|us| - 1]) + [us[|us| - 1] % 0x100, us[|us| - 1] / 0x100]
  }

  /** binary.LittleEndian.Uint16. */
  function Uint16(low: int, high: int): Unit
    requires 0 <= low < 0x100 && 0 <= high < 0x100
  {
    low + 0x100 * high
  }

  lemma {:induction false} LittleEndianAt(us: seq<Unit>, i: nat)
    requires i < |us|
    ensures LittleEndian(us)[2 * i] == us[i] % 0x100 && LittleEndian(us)[2 * i + 1] == us[i] / 0x100
  {
    if i < |us| - 1 {
      LittleEndianAt(us[..|us| - 1], i);
    }
  }

  // ---------- Base64 ----------

  function Digit(d: nat): char
    requires d < 64
  {
    if d < 26 then 'A' + d as char
    else if d < 52 then 'a' + (d - 26) as char
    else if d < 62 then '0' + (d - 52) as char
    else if d == 62 then '+'
    else '/'
  }

  /** The alphabet of section 4 of RFC 4648, by code points: A-Z, a-z, 0-9, plus, slash. */
  lemma AlphabetIs(d: nat)
    requires d < 64
    ensures Digit(d) as int == if d < 26 then 65 + d else if d < 52 then 71 + d else if d < 62 then d - 4
                               else if d == 62 then 43 else 47
  {
  }

  function Sextet(c: char): (d: Option<nat>)
    ensures d.Some? ==> d.value < 64
  {
    if 'A' <= c <= 'Z' then Some((c - 'A') as nat)
    else if 'a' <= c <= 'z' then Some((c - 'a') as nat + 26)
    else if '0' <= c <= '9' then Some((c - '0') as nat + 52)
    else if c == '+' then Some(62)
    else if c == '/' then Some(63)
    else None
  }

  lemma SextetInverts(d: nat)
    requires d < 64
    ensures Sextet(Digit(d)) == Some(d) && Digit(d) != '=' && Digit(d) != '\n' && Digit(d) != '\r'
  {
  }

  function Group(a: Byte, b: Byte, c: Byte): string {
    [Digit(a / 4), Digit(a % 4 * 16 + b / 16), Digit(b % 16 * 4 + c / 64), Digit(c % 64)]
  }

  /** The four digits of a group are the 24 bits of its bytes, six at a time. */
  lemma GroupIs(a: Byte, b: Byte, c: Byte) returns (d0: nat, d1: nat, d2: nat, d3: nat)
    ensures d0 < 64 && d1 < 64 && d2 < 64 && d3 < 64
    ensures a * 65536 + b * 256 + c == d0 * 262144 + d1 * 4096 + d2 * 64 + d3
    ensures Group(a, b, c) == [Digit(d0), Digit(d1), Digit(d2), Digit(d3)]
  {
    d0, d1, d2, d3 := a / 4, a % 4 * 16 + b / 16, b % 16 * 4 + c / 64, c % 64;
  }

  /** base64.StdEncoding.EncodeToString. */
  function Base64(bs: seq<Byte>): (s: string)
    ensures |s| == 4 * ((|bs| + 2) / 3)
  {
    if |bs| == 0 then ""
    else if |bs| == 1 then Group(bs[0], 0, 0)[..2] + "=="
    else if |bs| == 2 then Group(bs[0], bs[1], 0)[..3] + "="
    else Group(bs[0], bs[1], bs[2]) + Base64(bs[3..])
  }

  /** Whole groups, and what is left over: one byte gives two digits, two give three,
      padded with "=". */
  lemma Base64Is(bs: seq<Byte>)
    ensures |bs| >= 3 ==> Base64(bs) == Group(bs[0], bs[1], bs[2]) + Base64(bs[3..])
    ensures |bs| == 2 ==> Base64(bs) == Group(bs[0], bs[1], 0)[..3] + "="
    ensures |bs| == 1 ==> Base64(bs) == Group(bs[0], 0, 0)[..2] + "=="
  {
    hide Group;
  }

  /** The letters "Man". */
  lemma ManIs()
    ensures Base64([77, 97, 110]) == "TWFu"
  {
    hide Group, Digit;
    Base64Is([77, 97, 110]);
    assert [77, 97, 110][3..] == [];
    ManGroup();
  }

  lemma ManGroup()
    ensures Group(77, 97, 110) == ['T', 'W', 'F', 'u']
  {
  }

  /** One quantum of four characters, padded or not; only the last may be padded. */
  function Quantum(q: string, last: bool): Option<seq<Byte>>
    requires |q| == 4
  {
    var a, b, c, d := Sextet(q[0]), Sextet(q[1]), Sextet(q[2]), Sextet(q[3]);
    if a.None? || b.None? then None
    else
      var x := a.value * 4 + b.value / 16;
      if last && q[2] == '=' && q[3] == '=' then Some([x])
      else if c.None? then None
      else
        var y := b.value % 16 * 16 + c.value / 4;
        if last && q[3] == '=' then Some([x, y])
        else if d.None? then None
        else Some([x, y, c.value % 4 * 64 + d.value])
  }

  function Quanta(s: string): Option<seq<Byte>> {
    if s == [] then Some([])
    else if |s| < 4 then None
    else
      var q, rest := Quantum(s[..4], |s| == 4), Quanta(s[4..]);
      if q.None? || rest.None? then None else Some(q.value + rest.value)
  }

  /** The decoder skips line breaks. */
  function Unbroken(s: string): string {
    if s == [] then []
    else (if s[0] == '\n' || s[0] == '\r' then [] else [s[0]]) + Unbroken(s[1..])
  }

  /** base64.StdEncoding.DecodeString. */
  function FromBase64(s: string): Option<seq<Byte>> {
    Quanta(Unbroken(s))
  }

  /** Line breaks anywhere in the text do not matter. */
  lemma {:induction false} BreaksIgnored(a: string, b: string)
    ensures FromBase64(a + "\r\n" + b) == FromBase64(a + b)
  {
    UnbrokenConcat(a, "\r\n" + b);
    UnbrokenConcat("\r\n", b);
    UnbrokenConcat(a, b);
    assert a + "\r\n" + b == a + ("\r\n" + b);
    assert "\r\n"[1..] == "\n" && "\n"[1..] == "";
    assert Unbroken("\n") == [] && Unbroken("\r\n") == [];
    assert [] + Unbroken(b) == Unbroken(b);
  }

  lemma {:induction false} UnbrokenConcat(a: string, b: string)
    ensures Unbroken(a + b) == Unbroken(a) + Unbroken(b)
  {
    if a == [] {
      assert a + b == b;
    } else {
      assert (a + b)[1..] == a[1..] + b;
      UnbrokenConcat(a[1..], b);
    }
  }

  predicate InAlphabet(c: char) {
    Sextet(c).Some? || c == '='
  }

  /** Three bytes, as four sextets, and back. */
  lemma Regroups(a: int, b: int, c: int)
    requires 0 <= a < 256 && 0 <= b < 256 && 0 <= c < 256
    ensures a / 4 < 64 && a % 4 * 16 + b / 16 < 64 && b % 16 * 4 + c / 64 < 64 && c % 64 < 64
    ensures a / 4 * 4 + (a % 4 * 16 + b / 16) / 16 == a
    ensures (a % 4 * 16 + b / 16) % 16 * 16 + (b % 16 * 4 + c / 64) / 4 == b
    ensures (b % 16 * 4 + c / 64) % 4 * 64 + c % 64 == c
  {
  }

  lemma GroupDecodes(a: Byte, b: Byte, c: Byte, last: bool)
    ensures Quantum(Group(a, b, c), last) == Some([a, b, c])
    ensures forall x <- Group(a, b, c) :: Sextet(x).Some? && x != '='
  {
    hide Digit, Sextet;
    Regroups(a, b, c);
    SextetInverts(a / 4);
    SextetInverts(a % 4 * 16 + b / 16);
    SextetInverts(b % 16 * 4 + c / 64);
    SextetInverts(c % 64);
  }

  lemma TwoDecode(a: Byte, b: Byte)
    ensures Quantum(Group(a, b, 0)[..3] + "=", true) == Some([a, b])
  {
    hide Digit, Sextet;
    Regroups(a, b, 0);
    SextetInverts(a / 4);
    SextetInverts(a % 4 * 16 + b / 16);
    SextetInverts(b % 16 * 4);
  }

  lemma OneDecodes(a: Byte)
    ensures Quantum(Group(a, 0, 0)[..2] + "==", true) == Some([a])
  {
    hide Digit, Sextet;
    Regroups(a, 0, 0);
    SextetInverts(a / 4);
    SextetInverts(a % 4 * 16);
  }

  lemma {:induction false} QuantaDecode(bs: seq<Byte>)
    ensures Quanta(Base64(bs)) == Some(bs)
    ensures forall c <- Base64(bs) :: InAlphabet(c)
  {
    hide Quantum, Sextet, Digit;
    var s := Base64(bs);
    if |bs| == 1 {
      GroupDecodes(bs[0], 0, 0, true);
      OneDecodes(bs[0]);
      assert s[..4] == s && s[4..] == [];
      assert [bs[0]] + [] == bs;
      assert forall x <- s :: x in Group(bs[0], 0, 0) || x == '=';
    } else if |bs| == 2 {
      GroupDecodes(bs[0], bs[1], 0, true);
      TwoDecode(bs[0], bs[1]);
      assert s[..4] == s && s[4..] == [];
      assert [bs[0], bs[1]] + [] == bs;
      assert forall x <- s :: x in Group(bs[0], bs[1], 0) || x == '=';
    } else if |bs| > 2 {
      var g, rest := Group(bs[0], bs[1], bs[2]), Base64(bs[3..]);
      GroupDecodes(bs[0], bs[1], bs[2], |s| == 4);
      QuantaDecode(bs[3..]);
      assert s == g + rest && s[..4] == g && s[4..] == rest;
      assert [bs[0], bs[1], bs[2]] + bs[3..] == bs;
    }
  }

  lemma {:induction false} AlreadyUnbroken(s: string)
    requires forall c <- s :: InAlphabet(c)
    ensures Unbroken(s) == s
  {
    if s != [] {
      AlreadyUnbroken(s[1..]);
      assert InAlphabet(s[0]) && s == [s[0]] + s[1..];
    }
  }

  lemma Base64RoundTrip(bs: seq<Byte>)
    ensures FromBase64(Base64(bs)) == Some(bs)
    ensures forall c <- Base64(bs) :: InAlphabet(c)
  {
    QuantaDecode(bs);
    AlreadyUnbroken(Base64(bs));
  }

  // ---------- The command encoding ----------

  function Encoded(script: seq<Rune>): string {
    Base64(LittleEndian(Utf16(script)))
  }

  method EncodeCommand(script: seq<Rune>) returns (encoded: string)
    ensures encoded == Encoded(script)
  {
    var units := Utf16(script);
    var buf := new Byte[|units| * 2];
    for i := 0 to |units|
      invariant buf[..2 * i] == LittleEndian(units[..i])
    {
      buf[i * 2] := units[i] % 0x100;
      buf[i * 2 + 1] := units[i] / 0x100;
      assert units[..i + 1][..i] == units[..i];
      assert buf[..2 * (i + 1)] == buf[..2 * i] + [buf[i * 2], buf[i * 2 + 1]];
    }
    assert units[..|units|] == units && buf[..] == buf[..2 * |units|];
    encoded := Base64(buf[..]);
  }

  /** A decoded byte string read as little-endian units. */
  predicate Units(bs: seq<Byte>, us: seq<Unit>) {
    |bs| == 2 * |us| && forall i :: 0 <= i < |us| ==> us[i] == Uint16(bs[2 * i], bs[2 * i + 1])
  }

  method DecodeCommand(encoded: string) returns (r: Result<seq<Rune>, DecodeError>)
    ensures r.Ok? <==> FromBase64(encoded).Some? && |FromBase64(encoded).value| % 2 == 0
    ensures r == Err(CorruptInput) <==> FromBase64(encoded).None?
    ensures r.Ok? ==> exists us :: Units(FromBase64(encoded).value, us) && r.value == FromUtf16(us)
  {
    var buf := FromBase64(encoded);
    if buf.None? {
      return Err(CorruptInput);
    }
    if |buf.value| % 2 != 0 {
      return Err(NotUtf16);
    }
    var units := new Unit[|buf.value| / 2];
    for i := 0 to units.Length
      invariant forall j :: 0 <= j < i ==> units[j] == Uint16(buf.value[2 * j], buf.value[2 * j + 1])
    {
      units[i] := Uint16(buf.value[i * 2], buf.value[i * 2 + 1]);
    }
    assert Units(buf.value, units[..]);
    return Ok(FromUtf16(units[..]));
  }

  lemma UnitsUnique(us: seq<Unit>, us': seq<Unit>)
    requires Units(LittleEndian(us), us')
    ensures us' == us
  {
    forall i | 0 <= i < |us| ensures us'[i] == us[i] {
      LittleEndianAt(us, i);
    }
  }

  /** Decoding what was encoded gives back the script, whatever its runes. */
  lemma DecodesEncoded(script: seq<Rune>, us: seq<Unit>)
    ensures FromBase64(Encoded(script)).Some? && |FromBase64(Encoded(script)).value| % 2 == 0
    ensures Units(FromBase64(Encoded(script)).value, us) ==> FromUtf16(us) == script
  {
    hide Units, FromUtf16, Utf16, LittleEndian, Base64, FromBase64;
    Base64RoundTrip(LittleEndian(Utf16(script)));
    if Units(LittleEndian(Utf16(script)), us) {
      UnitsUnique(Utf16(script), us);
    }
    Utf16RoundTrip(script);
  }

  method RoundTrip(script: seq<Rune>) returns (r: Result<seq<Rune>, DecodeError>)
    ensures r == Ok(script)
  {
    hide Units, FromUtf16, Encoded, FromBase64;
    var encoded := EncodeCommand(script);
    DecodesEncoded(script, []);
    r := DecodeCommand(encoded);
    var us :| Units(FromBase64(encoded).value, us) && r.value == FromUtf16(us);
    DecodesEncoded(script, us);
  }

  /** The encoding is padded base64 of the length its UTF-16 units call for. */
  lemma EncodedShape(script: seq<Rune>)
    ensures |Encoded(script)| == 4 * ((2 * |Utf16(script)| + 2) / 3)
    ensures forall c <- Encoded(script) :: InAlphabet(c)
  {
    Base64RoundTrip(LittleEndian(Utf16(script)));
  }
}
