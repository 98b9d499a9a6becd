/** Characters as the YAML reader decodes and writes them: UTF-8 (section 3 of RFC 3629)
    and UTF-16 (section 2 of RFC 2781), restricted to the characters YAML allows. */
module Utf {
  import opened ByteOrder
  import opened Collections
  import opened Options

  datatype Encoding = Utf8 | Utf16Le | Utf16Be

  /** A character and the bytes it takes; or not enough bytes; or an error. */
  datatype Decoded = Char(value: nat, width: nat) | Incomplete | Bad

  // ----- decoding -----

  /** The number of bytes a first byte announces, 0 if it cannot be one. */
  function WidthOf(o: Byte): nat {
    if o < 0x80 then 1 else if 0xc0 <= o < 0xe0 then 2 else if 0xe0 <= o < 0xf0 then 3 else if 0xf0 <= o < 0xf8 then 4 else 0
  }

  /** The value bits of a first byte. */
  function LeadOf(o: Byte): nat {
    if o < 0x80 then o else if o < 0xe0 then o % 0x20 else if o < 0xf0 then o % 0x10 else o % 8
  }

  predicate Trails(b: Byte) {
    0x80 <= b < 0xc0
  }

  function SixBits(b: Byte): nat {
    b % 0x40
  }

  /** Six bits more from each trailing byte. */
  function Trail(value: nat, t: Bytes): Option<nat>
    decreases |t|
  {
    if t == [] then Some(value)
    else if !Trails(t[0]) then None
    else Trail(0x40 * value + SixBits(t[0]), t[1..])
  }

  predicate LongEnough(width: nat, value: nat) {
    width == 1 || (width == 2 && value >= 0x80) || (width == 3 && value >= 0x800) || (width == 4 && value >= 0x1_0000)
  }

  predicate Scalar(value: nat) {
    !(0xd800 <= value <= 0xdfff) && value <= 0x10_ffff
  }

  function DecodeUtf8(s: Bytes): Decoded
    requires s != []
  {
    var width := WidthOf(s[0]);
    if width == 0 then Bad
    else if width > |s| then Incomplete
    else
      var value := Trail(LeadOf(s[0]), s[1..width]);
      if value.None? || !LongEnough(width, value.value) || !Scalar(value.value) then Bad else Char(value.value, width)
  }

  function Unit(first: Byte, second: Byte, little: bool): nat {
    if little then first as nat + 0x100 * (second as nat) else second as nat + 0x100 * (first as nat)
  }

  function DecodeUtf16(s: Bytes, little: bool): Decoded
    requires s != []
  {
    if |s| < 2 then Incomplete else
      var value := Unit(s[0], s[1], little);
      if 0xdc00 <= value < 0xe000 then Bad
      else if 0xd800 <= value < 0xdc00 then
        if |s| < 4 then Incomplete else
          var value2 := Unit(s[2], s[3], little);
          if !(0xdc00 <= value2 < 0xe000) then Bad
          else Char(0x1_0000 + value % 0x400 * 0x400 + value2 % 0x400, 4)
      else Char(value, 2)
  }

  function Decode(enc: Encoding, s: Bytes): Decoded
    requires s != []
  {
    match enc
    case Utf8 => DecodeUtf8(s)
    case Utf16Le => DecodeUtf16(s, true)
    case Utf16Be => DecodeUtf16(s, false)
  }

  predicate Allowed(v: nat) {
    v == 9 || v == 0xa || v == 0xd || 0x20 <= v <= 0x7e || v == 0x85 || 0xa0 <= v <= 0xd7ff || 0xe000 <= v <= 0xfffd
    || 0x1_0000 <= v <= 0x10_ffff
  }

  /** The printable characters of YAML: left out are the controls but for tab and the line
      breaks, DEL, the surrogates, and the last two code points of the first plane. */
  lemma AllowedExactly(v: nat)
    ensures Allowed(v) <==>
      && v <= 0x10_ffff && !(v <= 8) && v !in {0xb, 0xc} && !(0xe <= v <= 0x1f)
      && !(0x7f <= v <= 0x84) && !(0x86 <= v <= 0x9f) && !(0xd800 <= v <= 0xdfff) && v !in {0xfffe, 0xffff}
  {
  }

  // ----- encoding -----

  function EncodeUtf8(v: nat): Bytes
    requires v <= 0x10_ffff
  {
    if v <= 0x7f then [v]
    else if v <= 0x7ff then [0xc0 + v / 0x40, 0x80 + v % 0x40]
    else if v <= 0xffff then [0xe0 + v / 0x1000, 0x80 + v / 0x40 % 0x40, 0x80 + v % 0x40]
    else [0xf0 + v / 0x4_0000, 0x80 + v / 0x1000 % 0x40, 0x80 + v / 0x40 % 0x40, 0x80 + v % 0x40]
  }

  function UnitBytes(u: nat, little: bool): Bytes
    requires u < 0x1_0000
  {
    if little then [u % 0x100, u / 0x100] else [u / 0x100, u % 0x100]
  }

  function EncodeUtf16(v: nat, little: bool): Bytes
    requires v <= 0x10_ffff
  {
    if v < 0x1_0000 then UnitBytes(v, little)
    else UnitBytes(0xd800 + (v - 0x1_0000) / 0x400, little) + UnitBytes(0xdc00 + (v - 0x1_0000) % 0x400, little)
  }

  function Encode(enc: Encoding, v: nat): Bytes
    requires v <= 0x10_ffff
  {
    match enc
    case Utf8 => EncodeUtf8(v)
    case Utf16Le => EncodeUtf16(v, true)
    case Utf16Be => EncodeUtf16(v, false)
  }

  // ----- one character there and back -----

  lemma TrailTwo(value: nat, a: Byte)
    ensures Trail(value, [a]) == if Trails(a) then Some(0x40 * value + SixBits(a)) else None
  {
    assert [a][1..] == [];
  }

  lemma TrailThree(value: nat, a: Byte, b: Byte)
    ensures Trail(value, [a, b]) ==
      if Trails(a) && Trails(b) then Some(0x1000 * value + 0x40 * SixBits(a) + SixBits(b)) else None
  {
    assert [a, b][1..] == [b];
    TrailTwo(0x40 * value + SixBits(a), b);
  }

  lemma TrailFour(value: nat, a: Byte, b: Byte, c: Byte)
    ensures Trail(value, [a, b, c]) ==
      if Trails(a) && Trails(b) && Trails(c)
      then Some(0x4_0000 * value + 0x1000 * SixBits(a) + 0x40 * SixBits(b) + SixBits(c)) else None
  {
    assert [a, b, c][1..] == [b, c];
    TrailThree(0x40 * value + SixBits(a), b, c);
  }

  /** The digits of a number to the base 64. */
  lemma Digits(v: nat)
    ensures v == 0x40 * (v / 0x40) + v % 0x40
    ensures v == 0x1000 * (v / 0x1000) + 0x40 * (v / 0x40 % 0x40) + v % 0x40
    ensures v == 0x4_0000 * (v / 0x4_0000) + 0x1000 * (v / 0x1000 % 0x40) + 0x40 * (v / 0x40 % 0x40) + v % 0x40
  {
    var a := v / 0x40;
    var b := a / 0x40;
    assert b == v / 0x1000;
    assert b / 0x40 == v / 0x4_0000;
    assert a == 0x40 * b + a % 0x40 && b == 0x40 * (b / 0x40) + b % 0x40;
  }

  /** Digits put together come apart again. */
  lemma DigitsOf(a: nat, b: nat, c: nat, d: nat)
    requires b < 0x40 && c < 0x40 && d < 0x40
    ensures var v := 0x4_0000 * a + 0x1000 * b + 0x40 * c + d;
      v / 0x4_0000 == a && v / 0x1000 % 0x40 == b && v / 0x40 % 0x40 == c && v % 0x40 == d
      && v / 0x1000 == 0x40 * a + b && v / 0x40 == 0x1000 * a + 0x40 * b + c
  {
    var v := 0x4_0000 * a + 0x1000 * b + 0x40 * c + d;
    assert v / 0x40 == 0x1000 * a + 0x40 * b + c;
    assert v / 0x1000 == 0x40 * a + b;
  }

  /** What the first byte of a character keeps. */
  function Rest6(v: nat): nat {
    if v <= 0x7f then v else if v <= 0x7ff then v / 0x40 else if v <= 0xffff then v / 0x1000 else v / 0x4_0000
  }

  lemma LeadBack(v: nat)
    requires v <= 0x10_ffff
    ensures var e := EncodeUtf8(v); WidthOf(e[0]) == |e| && LeadOf(e[0]) == Rest6(v) && LongEnough(|e|, v)
  {
  }

  lemma TrailBack(v: nat)
    requires v <= 0x10_ffff
    ensures Trail(Rest6(v), EncodeUtf8(v)[1..]) == Some(v)
  {
    hide Trails, SixBits, Trail;
    var e := EncodeUtf8(v);
    TrailingBytes(v);
    Digits(v);
    if v <= 0x7f {
      assert e[1..] == [];
      TrailNone(v);
    } else if v <= 0x7ff {
      assert e[1..] == [e[1]];
      TrailTwo(v / 0x40, e[1]);
    } else if v <= 0xffff {
      assert e[1..] == [e[1], e[2]];
      TrailThree(v / 0x1000, e[1], e[2]);
    } else {
      assert e[1..] == [e[1], e[2], e[3]];
      TrailFour(v / 0x4_0000, e[1], e[2], e[3]);
    }
  }

  /** A character written in UTF-8 is read back. */
  lemma Utf8Back(v: nat, rest: Bytes)
    requires Scalar(v)
    ensures var e := EncodeUtf8(v); DecodeUtf8(e + rest) == Char(v, |e|)
  {
    LeadBack(v);
    TrailBack(v);
    hide Trail, WidthOf, LeadOf, LongEnough, Rest6;
    var e := EncodeUtf8(v);
    var s := e + rest;
    assert s[0] == e[0] && s[1..|e|] == e[1..];
  }

  lemma TrailingBytes(v: nat)
    ensures Trails(0x80 + v % 0x40) && SixBits(0x80 + v % 0x40) == v % 0x40
    ensures Trails(0x80 + v / 0x40 % 0x40) && SixBits(0x80 + v / 0x40 % 0x40) == v / 0x40 % 0x40
    ensures Trails(0x80 + v / 0x1000 % 0x40) && SixBits(0x80 + v / 0x1000 % 0x40) == v / 0x1000 % 0x40
  {
  }

  lemma LeadOnly(o: Byte)
    ensures WidthOf(o) == 1 ==> LeadOf(o) == o <= 0x7f
    ensures WidthOf(o) == 2 ==> LeadOf(o) < 0x20 && o == 0xc0 + LeadOf(o)
    ensures WidthOf(o) == 3 ==> LeadOf(o) < 0x10 && o == 0xe0 + LeadOf(o)
    ensures WidthOf(o) == 4 ==> LeadOf(o) < 8 && o == 0xf0 + LeadOf(o)
    ensures WidthOf(o) <= 4
  {
  }

  lemma SixOnly(b: Byte)
    ensures SixBits(b) < 0x40 && (Trails(b) ==> b == 0x80 + SixBits(b))
  {
  }

  lemma TwoOnly(a: nat, b: Byte)
    requires a < 0x20 && Trails(b) && 0x40 * a + SixBits(b) >= 0x80
    ensures EncodeUtf8(0x40 * a + SixBits(b)) == [0xc0 + a, b]
  {
    SixOnly(b);
    hide SixBits, Trails;
    DigitsOf(0, 0, a, SixBits(b));
  }

  lemma ThreeOnly(a: nat, b: Byte, c: Byte)
    requires a < 0x10 && Trails(b) && Trails(c) && 0x1000 * a + 0x40 * SixBits(b) + SixBits(c) >= 0x800
    ensures EncodeUtf8(0x1000 * a + 0x40 * SixBits(b) + SixBits(c)) == [0xe0 + a, b, c]
  {
    SixOnly(b);
    SixOnly(c);
    hide SixBits, Trails;
    DigitsOf(0, a, SixBits(b), SixBits(c));
  }

  lemma FourOnly(a: nat, b: Byte, c: Byte, d: Byte)
    requires a < 8 && Trails(b) && Trails(c) && Trails(d)
    requires 0x1_0000 <= 0x4_0000 * a + 0x1000 * SixBits(b) + 0x40 * SixBits(c) + SixBits(d) <= 0x10_ffff
    ensures EncodeUtf8(0x4_0000 * a + 0x1000 * SixBits(b) + 0x40 * SixBits(c) + SixBits(d)) == [0xf0 + a, b, c, d]
  {
    SixOnly(b);
    SixOnly(c);
    SixOnly(d);
    hide SixBits, Trails;
    DigitsOf(a, SixBits(b), SixBits(c), SixBits(d));
  }

  /** And what is read as a character is just how that character is written. */
  lemma Utf8Only(s: Bytes)
    requires s != [] && DecodeUtf8(s).Char?
    ensures var c := DecodeUtf8(s); Scalar(c.value) && 1 <= c.width <= |s| && EncodeUtf8(c.value) == s[..c.width]
  {
    hide Trail, SixBits, Trails, LeadOf, WidthOf, EncodeUtf8;
    var w, a, v := WidthOf(s[0]), LeadOf(s[0]), DecodeUtf8(s).value;
    LeadOnly(s[0]);
    if w == 2 {
      assert s[1..2] == [s[1]] && s[..2] == [s[0], s[1]];
      TrailTwo(a, s[1]);
      TwoOnly(a, s[1]);
    } else if w == 3 {
      assert s[1..3] == [s[1], s[2]] && s[..3] == [s[0], s[1], s[2]];
      TrailThree(a, s[1], s[2]);
      ThreeOnly(a, s[1], s[2]);
    } else if w == 4 {
      assert s[1..4] == [s[1], s[2], s[3]] && s[..4] == [s[0], s[1], s[2], s[3]];
      TrailFour(a, s[1], s[2], s[3]);
      FourOnly(a, s[1], s[2], s[3]);
    } else {
      assert s[1..1] == [] && s[..1] == [s[0]];
      TrailNone(a);
      OneOnly(a);
    }
  }

  lemma OneOnly(a: nat)
    requires a <= 0x7f
    ensures EncodeUtf8(a) == [a]
  {
  }

  lemma TrailNone(v: nat)
    ensures Trail(v, []) == Some(v)
  {
  }

  lemma UnitBack(u: nat, little: bool)
    requires u < 0x1_0000
    ensures var b := UnitBytes(u, little); |b| == 2 && Unit(b[0], b[1], little) == u
  {
  }

  lemma Utf16Back(v: nat, rest: Bytes, little: bool)
    requires Scalar(v)
    ensures var e := EncodeUtf16(v, little); DecodeUtf16(e + rest, little) == Char(v, |e|)
  {
    hide Unit, UnitBytes;
    if v < 0x1_0000 {
      UnitBack(v, little);
    } else {
      var x := v - 0x1_0000;
      UnitBack(0xd800 + x / 0x400, little);
      UnitBack(0xdc00 + x % 0x400, little);
      SurrogateBits(x);
      var a, b := UnitBytes(0xd800 + x / 0x400, little), UnitBytes(0xdc00 + x % 0x400, little);
      var s := a + b + rest;
      assert s[0] == a[0] && s[1] == a[1] && s[2] == b[0] && s[3] == b[1];
    }
  }

  lemma SurrogateBits(x: nat)
    requires x < 0x10_0000
    ensures x / 0x400 < 0x400 && (0xd800 + x / 0x400) % 0x400 == x / 0x400 && (0xdc00 + x % 0x400) % 0x400 == x % 0x400
    ensures x / 0x400 * 0x400 + x % 0x400 == x
  {
  }

  lemma UnitOnly(first: Byte, second: Byte, little: bool)
    ensures Unit(first, second, little) < 0x1_0000 && UnitBytes(Unit(first, second, little), little) == [first, second]
  {
  }

  lemma Utf16Only(s: Bytes, little: bool)
    requires s != [] && DecodeUtf16(s, little).Char?
    ensures var c := DecodeUtf16(s, little);
      Scalar(c.value) && 1 <= c.width <= |s| && EncodeUtf16(c.value, little) == s[..c.width]
  {
    hide Unit, UnitBytes;
    UnitOnly(s[0], s[1], little);
    assert s[..2] == [s[0], s[1]];
    var u := Unit(s[0], s[1], little);
    if 0xd800 <= u < 0xdc00 {
      UnitOnly(s[2], s[3], little);
      assert s[..4] == [s[0], s[1]] + [s[2], s[3]];
      PairBits(u, Unit(s[2], s[3], little));
    }
  }

  lemma PairBits(u: nat, w: nat)
    requires 0xd800 <= u < 0xdc00 && 0xdc00 <= w < 0xe000
    ensures var x := u % 0x400 * 0x400 + w % 0x400;
      x < 0x10_0000 && 0xd800 + x / 0x400 == u && 0xdc00 + x % 0x400 == w
  {
    var a, b := u % 0x400, w % 0x400;
    assert (a * 0x400 + b) / 0x400 == a && (a * 0x400 + b) % 0x400 == b;
  }

  // ----- whole inputs -----

  lemma Back(enc: Encoding, v: nat, rest: Bytes)
    requires Scalar(v)
    ensures var e := Encode(enc, v); e != [] && Decode(enc, e + rest) == Char(v, |e|)
  {
    hide DecodeUtf8, DecodeUtf16;
    match enc
    case Utf8 => Utf8Back(v, rest);
    case Utf16Le => Utf16Back(v, rest, true);
    case Utf16Be => Utf16Back(v, rest, false);
  }

  lemma Only(enc: Encoding, s: Bytes)
    requires s != [] && Decode(enc, s).Char?
    ensures var c := Decode(enc, s); Scalar(c.value) && 1 <= c.width <= |s| && Encode(enc, c.value) == s[..c.width]
  {
    hide DecodeUtf8, DecodeUtf16, EncodeUtf8, EncodeUtf16;
    match enc
    case Utf8 => Utf8Only(s);
    case Utf16Le => Utf16Only(s, true);
    case Utf16Be => Utf16Only(s, false);
  }

  /** A character or an error does not change with the bytes that follow. */
  lemma Settled(enc: Encoding, s: Bytes, t: Bytes)
    requires s != [] && !Decode(enc, s).Incomplete?
    ensures Decode(enc, s + t) == Decode(enc, s)
  {
    hide Trail, WidthOf, LeadOf, LongEnough;
    if enc.Utf8? && WidthOf(s[0]) > 0 {
      assert (s + t)[1..WidthOf(s[0])] == s[1..WidthOf(s[0])];
    }
  }

  /** At most four bytes make a character or an error. */
  lemma FourSettle(enc: Encoding, s: Bytes)
    requires |s| >= 4
    ensures !Decode(enc, s).Incomplete?
  {
    hide Trail, LeadOf, LongEnough;
  }

  /** The whole input in UTF-8, if every character of it is well formed and allowed. */
  function Transcode(enc: Encoding, s: Bytes): Option<Bytes>
    decreases |s|
  {
    if s == [] then Some([]) else
      var c := Decode(enc, s);
      if !c.Char? || !Allowed(c.value) then None else
        Only(enc, s);
        var rest := Transcode(enc, s[c.width..]);
        if rest.None? then None else Some(EncodeUtf8(c.value) + rest.value)
  }

  predicate AllAllowed(vs: seq<nat>) {
    forall i | 0 <= i < |vs| :: Allowed(vs[i])
  }

  function EncodeAll(enc: Encoding, vs: seq<nat>): Bytes
    requires AllAllowed(vs)
  {
    if vs == [] then [] else Encode(enc, vs[0]) + EncodeAll(enc, vs[1..])
  }

  lemma {:induction false} TranscodeEncoded(enc: Encoding, vs: seq<nat>)
    requires AllAllowed(vs)
    ensures Transcode(enc, EncodeAll(enc, vs)) == Some(EncodeAll(Utf8, vs))
  {
    if vs != [] {
      hide Encode, Decode;
      var e, rest := Encode(enc, vs[0]), EncodeAll(enc, vs[1..]);
      Back(enc, vs[0], rest);
      TranscodeEncoded(enc, vs[1..]);
      assert (e + rest)[|e|..] == rest;
      EncodeIsUtf8(vs[0]);
    }
  }

  lemma EncodeIsUtf8(v: nat)
    requires v <= 0x10_ffff
    ensures Encode(Utf8, v) == EncodeUtf8(v)
  {
  }

  lemma {:induction false} Transcoded(enc: Encoding, s: Bytes) returns (vs: seq<nat>)
    requires Transcode(enc, s).Some?
    ensures AllAllowed(vs) && s == EncodeAll(enc, vs) && Transcode(enc, s).value == EncodeAll(Utf8, vs)
    decreases |s|
  {
    hide Encode, Decode, EncodeUtf8, Allowed, EncodeAll, AllAllowed;
    if s == [] {
      vs := [];
      NoneAllowed(enc);
    } else {
      var c := Decode(enc, s);
      Only(enc, s);
      var more := Transcoded(enc, s[c.width..]);
      vs := [c.value] + more;
      OneMoreAllowed(enc, c.value, more);
      OneMoreAllowed(Utf8, c.value, more);
      EncodeIsUtf8(c.value);
      assert s == s[..c.width] + s[c.width..];
    }
  }

  lemma NoneAllowed(enc: Encoding)
    ensures AllAllowed([]) && EncodeAll(enc, []) == [] && EncodeAll(Utf8, []) == []
  {
  }

  lemma OneMoreAllowed(enc: Encoding, v: nat, more: seq<nat>)
    requires Allowed(v) && AllAllowed(more)
    ensures AllAllowed([v] + more) && EncodeAll(enc, [v] + more) == Encode(enc, v) + EncodeAll(enc, more)
  {
    hide Encode;
    var vs := [v] + more;
    assert vs[1..] == more;
  }

  /** An input is accepted if and only if it is an encoding of allowed characters, and what
      comes out is the UTF-8 encoding of the same characters. */
  lemma AcceptsExactly(enc: Encoding, s: Bytes, out: Bytes)
    ensures Transcode(enc, s) == Some(out)
      <==> exists vs: seq<nat> :: AllAllowed(vs) && s == EncodeAll(enc, vs) && out == EncodeAll(Utf8, vs)
  {
    hide Encode, Decode;
    if Transcode(enc, s) == Some(out) {
      var vs := Transcoded(enc, s);
    }
    if vs: seq<nat> :| AllAllowed(vs) && s == EncodeAll(enc, vs) && out == EncodeAll(Utf8, vs) {
      TranscodeEncoded(enc, vs);
    }
  }

  /** Accepted UTF-8 comes out as it is. */
  lemma Utf8Unchanged(s: Bytes)
    requires Transcode(Utf8, s).Some?
    ensures Transcode(Utf8, s) == Some(s)
  {
    var vs := Transcoded(Utf8, s);
  }

  // ----- part by part -----

  lemma {:induction false} TranscodeJoin(enc: Encoding, a: Bytes, b: Bytes)
    requires Transcode(enc, a).Some?
    ensures Transcode(enc, a + b) ==
      if Transcode(enc, b).None? then None else Some(Transcode(enc, a).value + Transcode(enc, b).value)
    decreases |a|
  {
    hide Decode, EncodeUtf8, Encode, Allowed;
    if a == [] {
      assert a + b == b;
      assert Transcode(enc, b).Some? ==> [] + Transcode(enc, b).value == Transcode(enc, b).value;
    } else {
      var c := Decode(enc, a);
      Only(enc, a);
      Settled(enc, a, b);
      assert (a + b)[c.width..] == a[c.width..] + b;
      TranscodeJoin(enc, a[c.width..], b);
      if Transcode(enc, b).Some? {
        Regroup(EncodeUtf8(c.value), Transcode(enc, a[c.width..]).value, Transcode(enc, b).value);
      }
    }
  }

  /** One character more. */
  lemma TranscodeOne(enc: Encoding, s: Bytes)
    requires s != [] && Decode(enc, s).Char? && Allowed(Decode(enc, s).value)
    ensures var c := Decode(enc, s); c.width <= |s| && Transcode(enc, s[..c.width]) == Some(EncodeUtf8(c.value))
  {
    hide Encode, Decode, EncodeUtf8;
    var c := Decode(enc, s);
    Only(enc, s);
    var e := s[..c.width];
    Back(enc, c.value, []);
    assert e + [] == e && e[c.width..] == [];
    assert EncodeUtf8(c.value) + [] == EncodeUtf8(c.value);
  }
}
