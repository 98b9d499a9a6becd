/** The YAML reader: from the bytes a read handler gives, in whatever pieces, to characters
    in UTF-8 in the parser's buffer. */
module YamlReader {
  import opened ByteOrder
  import opened Collections
  import opened Options
  import opened Utf

  const RAW_SIZE: nat := 16384
  const MAX_FILE_SIZE: nat := 0x7fff_ffff_ffff_ffff

  /** The encoding a byte order mark announces, and the length of the mark. */
  function EncodingOf(s: Bytes): Encoding {
    if |s| >= 2 && s[0] == 0xff && s[1] == 0xfe then Utf16Le
    else if |s| >= 2 && s[0] == 0xfe && s[1] == 0xff then Utf16Be
    else Utf8
  }

  function MarkLength(s: Bytes): (n: nat)
    ensures n <= |s|
  {
    if !EncodingOf(s).Utf8? then 2 else if |s| >= 3 && s[0] == 0xef && s[1] == 0xbb && s[2] == 0xbf then 3 else 0
  }

  /** What is to come of a whole input: its characters in UTF-8, without the mark. */
  function Meaning(input: Bytes): Option<Bytes> {
    Transcode(EncodingOf(input), input[MarkLength(input)..])
  }

  /** How far the reader is: all up to `offset` is decoded into `made`, and `rest` is left. */
  ghost predicate Ahead(input: Bytes, enc: Option<Encoding>, offset: nat, rest: Bytes, made: Bytes, ended: bool) {
    var n := MarkLength(input);
    if enc.None? then offset == 0 && rest == input && made == [] && !ended
    else
      && enc.value == EncodingOf(input) && n <= offset <= |input| && rest == input[offset..] && (ended ==> rest == [])
      && Transcode(enc.value, input[n..offset]).Some?
      && made == Transcode(enc.value, input[n..offset]).value + if ended then [0] else []
  }

  lemma EncodingIs(r: Bytes)
    ensures |r| >= 2 && r[0] == 0xff && r[1] == 0xfe ==> EncodingOf(r) == Utf16Le && MarkLength(r) == 2
    ensures |r| >= 2 && r[0] == 0xfe && r[1] == 0xff ==> EncodingOf(r) == Utf16Be && MarkLength(r) == 2
    ensures |r| >= 3 && r[0] == 0xef && r[1] == 0xbb && r[2] == 0xbf ==> EncodingOf(r) == Utf8 && MarkLength(r) == 3
    ensures (!(|r| >= 2 && r[0] == 0xff && r[1] == 0xfe) && !(|r| >= 2 && r[0] == 0xfe && r[1] == 0xff)
             && !(|r| >= 3 && r[0] == 0xef && r[1] == 0xbb && r[2] == 0xbf)) ==> EncodingOf(r) == Utf8 && MarkLength(r) == 0
  {
  }

  /** The mark is known from the first three bytes, or from all if there are fewer. */
  lemma MarkedHere(input: Bytes, offset: nat, r: Bytes, more: Bytes, made: Bytes, ended: bool)
    requires Ahead(input, None, offset, r + more, made, ended) && (|r| >= 3 || more == [])
    ensures offset == 0 && !ended && Ahead(input, Some(EncodingOf(r)), MarkLength(r), r[MarkLength(r)..] + more, made, false)
  {
    assert more == [] ==> r + more == r;
    Marked(input, r);
    assert r[MarkLength(r)..] + more == (r + more)[MarkLength(r)..];
  }

  lemma Marked(input: Bytes, seen: Bytes)
    requires seen <= input && (|seen| >= 3 || seen == input)
    ensures EncodingOf(seen) == EncodingOf(input) && MarkLength(seen) == MarkLength(input)
    ensures Ahead(input, Some(EncodingOf(input)), MarkLength(input), input[MarkLength(input)..], [], false)
  {
    assert input[MarkLength(input)..MarkLength(input)] == [];
  }

  lemma Further(input: Bytes, enc: Encoding, offset: nat, rest: Bytes, made: Bytes)
    requires Ahead(input, Some(enc), offset, rest, made, false) && rest != []
    requires Decode(enc, rest).Char? && Allowed(Decode(enc, rest).value)
    ensures var c := Decode(enc, rest);
      1 <= c.width <= |rest| && Ahead(input, Some(enc), offset + c.width, rest[c.width..], made + EncodeUtf8(c.value), false)
  {
    hide Transcode, Decode, EncodeUtf8, Encode, Allowed;
    var c, n := Decode(enc, rest), MarkLength(input);
    Only(enc, rest);
    AllowedRange(c.value);
    TranscodeOne(enc, rest);
    TranscodeJoin(enc, input[n..offset], rest[..c.width]);
    assert input[n..offset + c.width] == input[n..offset] + rest[..c.width];
  }

  lemma AllowedRange(v: nat)
    requires Allowed(v)
    ensures v <= 0x10_ffff
  {
  }

  lemma Stuck(input: Bytes, enc: Encoding, offset: nat, rest: Bytes, made: Bytes)
    requires Ahead(input, Some(enc), offset, rest, made, false) && rest != []
    requires !(Decode(enc, rest).Char? && Allowed(Decode(enc, rest).value))
    ensures Meaning(input).None?
  {
    hide Decode, EncodeUtf8, Encode, Allowed;
    var n := MarkLength(input);
    TranscodeJoin(enc, input[n..offset], rest);
    assert input[n..] == input[n..offset] + rest;
  }

  /** At the end: all the input's characters, then one NUL. */
  lemma Finished(input: Bytes, enc: Option<Encoding>, offset: nat, rest: Bytes, made: Bytes)
    requires Ahead(input, enc, offset, rest, made, true)
    ensures Meaning(input).Some? && made == Meaning(input).value + [0]
  {
    assert input[MarkLength(input)..offset] == input[MarkLength(input)..];
  }

  lemma MadeInMeaning(input: Bytes, enc: Option<Encoding>, offset: nat, rest: Bytes, made: Bytes, ended: bool)
    requires Ahead(input, enc, offset, rest, made, ended) && Meaning(input).Some?
    ensures made <= Meaning(input).value + [0]
  {
    hide Transcode, EncodingOf, MarkLength;
    if enc.Some? {
      var n := MarkLength(input);
      var a := input[n..offset];
      assert input[n..] == a + rest;
      TranscodeJoin(enc.value, a, rest);
      if ended { assert a + rest == a; }
    }
  }

  /** What the scanner asks of the reader. */
  datatype Call = LookFor(length: nat) | Pass

  function Passes(calls: seq<Call>): nat {
    if calls == [] then 0 else (if calls[0].Pass? then 1 else 0) + Passes(calls[1..])
  }

  /** No character is passed over that was not looked for, with so many there to begin with. */
  predicate Covered(calls: seq<Call>, credit: nat)
    decreases |calls|
  {
    calls == [] ||
    match calls[0]
    case LookFor(n) => Covered(calls[1..], if n > credit then n else credit)
    case Pass => credit > 0 && Covered(calls[1..], credit - 1)
  }

  lemma NoChars()
    ensures InChars([], 0)
  {
  }

  /** So many characters, each as long as its first byte says. */
  predicate InChars(s: Bytes, n: nat) {
    if n == 0 then s == [] else s != [] && 1 <= WidthOf(s[0]) <= |s| && InChars(s[WidthOf(s[0])..], n - 1)
  }

  lemma {:induction false} CharsJoin(s: Bytes, n: nat, c: Bytes)
    requires InChars(s, n) && c != [] && WidthOf(c[0]) == |c|
    ensures InChars(s + c, n + 1)
    decreases n
  {
    if n == 0 {
      assert s + c == c && c[|c|..] == [];
    } else {
      var w := WidthOf(s[0]);
      CharsJoin(s[w..], n - 1, c);
      assert (s + c)[w..] == s[w..] + c;
    }
  }

  lemma OneMore(buffer: Bytes, at: nat, n: nat, c: Bytes)
    requires at <= |buffer| && InChars(buffer[at..], n) && c != [] && WidthOf(c[0]) == |c|
    ensures at <= |buffer + c| && InChars((buffer + c)[at..], n + 1)
  {
    hide InChars;
    CharsJoin(buffer[at..], n, c);
    assert (buffer + c)[at..] == buffer[at..] + c;
  }

  lemma PassedOver(made: Bytes, buffer: Bytes, at: nat, n: nat)
    requires at <= |buffer| && 0 <= |made| + at - |buffer| && InChars(buffer[at..], n) && n > 0
    requires made[|made| + at - |buffer|..] == buffer[at..]
    ensures at < |buffer| && 1 <= WidthOf(buffer[at]) <= |buffer| - at
    ensures var g, w := |made| + at - |buffer|, WidthOf(buffer[at]);
      InChars(buffer[at + w..], n - 1) && made[g..g + w] == buffer[at..at + w] && made[g + w..] == buffer[at + w..]
  {
    hide WidthOf;
    var g, w := |made| + at - |buffer|, WidthOf(buffer[at..][0]);
    assert buffer[at..][w..] == buffer[at + w..] && buffer[at..][..w] == buffer[at..at + w];
    assert made[g..][..w] == made[g..g + w] && made[g..][w..] == made[g + w..];
  }

  class Reader {
    var source: seq<Bytes>
    var broken: bool
    var raw: Bytes
    var pointer: nat
    var eof: bool
    var encoding: Option<Encoding>
    var offset: nat
    var buffer: Bytes
    var at: nat
    var unread: nat
    var failed: bool
    ghost var input: Bytes
    ghost var made: Bytes
    ghost var ended: bool

    /** `made` is all that was ever put into the buffer, which still holds the last of it. */
    ghost predicate Valid()
      reads this
    {
      var n := |buffer| - at;
      && pointer <= |raw| <= RAW_SIZE && at <= |buffer| && n <= |made| && made[|made| - n..] == buffer[at..]
      && (eof ==> Concat(source) == []) && (ended ==> eof) && InChars(buffer[at..], unread)
      && Ahead(input, encoding, offset, raw[pointer..] + Concat(source), made, ended)
    }

    /** Between calls: the end was seen only if it was put into the buffer. */
    ghost predicate Ready()
      reads this
    {
      var b := failed;
      Valid() && !b && (eof ==> ended)
    }

    constructor (source: seq<Bytes>, broken: bool)
      ensures Ready() && input == Concat(source) && made == [] && Gone() == 0 && this.broken == broken
    {
      this.source, this.broken, raw, pointer, eof, encoding := source, broken, [], 0, false, None;
      offset, buffer, at, unread, failed := 0, [], 0, 0, false;
      input, made, ended := Concat(source), [], false;
      new;
      assert raw[pointer..] + Concat(source) == Concat(source);
    }

    /** How many of the bytes made were passed over already. */
    ghost function Gone(): int
      reads this
    {
      |made| + at - |buffer|
    }

    /** The read handler: some bytes, none at the end, or an error there. */
    method ReadHandler(room: nat) returns (ok: bool, bytes: Bytes)
      requires room > 0
      modifies this`source
      ensures |bytes| <= room && bytes + Concat(source) == old(Concat(source))
      ensures bytes == [] ==> Concat(source) == []
      ensures !ok ==> broken && bytes == []
    {
      while source != [] && source[0] == []
        invariant Concat(source) == old(Concat(source))
        decreases |source|
      {
        assert Concat(source) == source[0] + Concat(source[1..]) == Concat(source[1..]);
        source := source[1..];
      }
      if source == [] {
        return !broken, [];
      }
      ok := true;
      bytes := source[0][..if room < |source[0]| then room else |source[0]|];
      TakeFront(source, |bytes|);
      source := source[0 := source[0][|bytes|..]];
    }

    method UpdateRawBuffer() returns (ok: bool)
      requires Valid() && !failed
      modifies this
      ensures Valid() && !failed == ok && Kept() && raw[pointer..] + Concat(source) == old(raw[pointer..] + Concat(source))
      ensures !ok ==> broken && Concat(source) == []
      ensures ok ==> eof || |Concat(source)| < |old(Concat(source))|
                     || (pointer == 0 && |raw| == RAW_SIZE && raw == old(raw) && old(pointer) == 0 && Concat(source) == old(Concat(source)))
      ensures old(eof) ==> eof && raw[pointer..] == old(raw[pointer..])
    {
      hide Ahead, Concat, InChars;
      if (pointer == 0 && |raw| == RAW_SIZE) || eof {
        return true;
      }
      raw := raw[pointer..];
      pointer := 0;
      var bytes;
      ok, bytes := ReadHandler(RAW_SIZE - |raw|);
      assert (raw + bytes)[0..] + Concat(source) == raw + (bytes + Concat(source));
      if !ok {
        failed := true;
        assert raw + bytes == raw && raw[0..] == raw;
        return;
      }
      raw := raw + bytes;
      if bytes == [] {
        eof := true;
      }
    }

    /** What reading more changes nothing of. */
    twostate predicate Kept()
      reads this
    {
      && input == old(input) && made == old(made) && ended == old(ended) && encoding == old(encoding) && offset == old(offset)
      && buffer == old(buffer) && at == old(at) && unread == old(unread) && broken == old(broken)
    }

    /** Looks at the first bytes, once three are there or no more will come. */
    method DetermineEncoding() returns (ok: bool)
      requires Valid() && !failed && encoding.None?
      modifies this
      ensures Valid() && !failed == ok
      ensures ok ==> encoding.Some? && !ended && |buffer| - at == old(|buffer| - at) && buffer == old(buffer) && unread == old(unread)
      ensures !ok ==> broken && Concat(source) == []
      ensures input == old(input) && broken == old(broken) && made == old(made) && (old(eof) ==> eof) && Gone() == old(Gone())
    {
      hide Concat, Ahead, Valid;
      while !eof && |raw| - pointer < 3
        invariant Valid() && !failed && Kept() && (old(eof) ==> eof)
        decreases !eof, |Concat(source)|
      {
        Bounds();
        ok := UpdateRawBuffer();
        if !ok {
          return;
        }
      }
      ok := true;
      Mark();
    }

    /** The mark, if there is one, is skipped. */
    method Mark()
      requires Valid() && !failed && encoding.None? && (eof || |raw| - pointer >= 3)
      modifies this`encoding, this`pointer, this`offset
      ensures Valid() && encoding.Some? && !ended
    {
      hide Concat, Ahead, Transcode, EncodingOf, MarkLength, InChars;
      var r := raw[pointer..];
      ghost var more: Bytes := Concat(source);
      MarkedHere(input, offset, r, more, made, ended);
      EncodingIs(r);
      if |r| >= 2 && r[0] == 0xff && r[1] == 0xfe {
        encoding := Some(Utf16Le);
        pointer, offset := pointer + 2, offset + 2;
      } else if |r| >= 2 && r[0] == 0xfe && r[1] == 0xff {
        encoding := Some(Utf16Be);
        pointer, offset := pointer + 2, offset + 2;
      } else if |r| >= 3 && r[0] == 0xef && r[1] == 0xbb && r[2] == 0xbf {
        encoding := Some(Utf8);
        pointer, offset := pointer + 3, offset + 3;
      } else {
        encoding := Some(Utf8);
      }
      assert raw[pointer..] == r[MarkLength(r)..];
    }

    lemma Bounds()
      requires Valid()
      ensures pointer <= |raw| <= RAW_SIZE && at <= |buffer|
    {
      hide Ahead, Concat, InChars;
    }

    /** The next character, its trailing bytes one by one. */
    method DecodeNext() returns (d: Decoded)
      requires pointer < |raw| && encoding.Some?
      ensures d == Decode(encoding.value, raw[pointer..])
    {
      var s := raw[pointer..];
      if encoding.value.Utf8? {
        var width := WidthOf(s[0]);
        if width == 0 {
          return Bad;
        }
        if width > |s| {
          return Incomplete;
        }
        var value: nat := LeadOf(s[0]);
        for k := 1 to width
          invariant Trail(value, s[k..width]) == Trail(LeadOf(s[0]), s[1..width])
        {
          assert s[k..width][0] == s[k] && s[k..width][1..] == s[k + 1..width];
          if !Trails(s[k]) {
            return Bad;
          }
          value := 0x40 * value + SixBits(s[k]);
        }
        assert s[width..width] == [];
        if !LongEnough(width, value) || !Scalar(value) {
          return Bad;
        }
        d := Char(value, width);
      } else {
        var little := encoding.value.Utf16Le?;
        if |s| < 2 {
          return Incomplete;
        }
        var value := Unit(s[0], s[1], little);
        if 0xdc00 <= value < 0xe000 {
          return Bad;
        }
        if 0xd800 <= value < 0xdc00 {
          if |s| < 4 {
            return Incomplete;
          }
          var value2 := Unit(s[2], s[3], little);
          if !(0xdc00 <= value2 < 0xe000) {
            return Bad;
          }
          d := Char(0x1_0000 + value % 0x400 * 0x400 + value2 % 0x400, 4);
        } else {
          d := Char(value, 2);
        }
      }
    }

    /** Decodes what is in the raw buffer, up to a character that is not all there. */
    method DecodeRaw() returns (ok: bool)
      requires Valid() && !failed && encoding.Some? && !ended
      modifies this
      ensures Valid() && !failed == ok && Fed()
      ensures ok ==> pointer >= old(pointer) && (eof ==> pointer == |raw|) && (old(|raw| - pointer) >= 4 ==> pointer > old(pointer))
      ensures !ok ==> Meaning(input).None?
    {
      hide Ahead, Concat, Decode, Allowed, EncodeUtf8, Meaning, Valid;
      Bounds();
      while pointer != |raw|
        invariant Valid() && !failed && Fed() && old(pointer) <= pointer <= |raw|
        decreases |raw| - pointer
      {
        var d := DecodeNext();
        if d.Incomplete? && !eof {
          NotFour();
          return true;
        }
        Judge();
        if !d.Char? || !Allowed(d.value) {
          Fail();
          return false;
        }
        Put(d.value, d.width);
      }
      ok := true;
    }

    /** What decoding changes nothing of. */
    twostate predicate Fed()
      reads this
    {
      && input == old(input) && ended == old(ended) && encoding == old(encoding) && raw == old(raw) && eof == old(eof)
      && source == old(source) && broken == old(broken) && old(made) <= made && Gone() == old(Gone())
    }

    method Fail()
      requires Valid()
      modifies this`failed
      ensures Valid() && failed
    {
      hide Ahead, Concat, InChars;
      failed := true;
    }

    lemma NotFour()
      requires pointer < |raw| && encoding.Some? && Decode(encoding.value, raw[pointer..]).Incomplete?
      ensures |raw| - pointer < 4
    {
      hide Decode;
      if |raw| - pointer >= 4 { FourSettle(encoding.value, raw[pointer..]); }
    }

    /** The next character is that of the whole rest, and if it is none the input is bad. */
    lemma Judge()
      requires Valid() && pointer < |raw| && encoding.Some? && !ended
      requires Decode(encoding.value, raw[pointer..]).Incomplete? ==> eof
      ensures var d := Decode(encoding.value, raw[pointer..]);
        && d == Decode(encoding.value, raw[pointer..] + Concat(source))
        && (!(d.Char? && Allowed(d.value)) ==> Meaning(input).None?)
        && (d.Char? ==> 1 <= d.width <= |raw| - pointer)
    {
      hide Decode, Allowed, Meaning, Concat, Ahead, InChars;
      var r, more, enc := raw[pointer..], Concat(source), encoding.value;
      if eof { assert r + more == r; } else { Settled(enc, r, more); }
      if Decode(enc, r).Char? { Only(enc, r); }
      if !(Decode(enc, r).Char? && Allowed(Decode(enc, r).value)) { Stuck(input, enc, offset, r + more, made); }
    }

    /** A character is put into the buffer, one to four bytes long. */
    method Put(value: nat, width: nat)
      requires Valid() && !failed && pointer < |raw| && encoding.Some? && !ended && Allowed(value)
      requires Decode(encoding.value, raw[pointer..]) == Char(value, width)
      modifies this
      ensures Valid() && !failed && Fed() && pointer == old(pointer) + width && old(pointer) < pointer <= |raw|
      ensures offset == old(offset) + width && unread == old(unread) + 1
    {
      hide Decode, Concat, Ahead, Transcode, Meaning, InChars, WidthOf;
      AllowedRange(value);
      LeadBack(value);
      Judge();
      ghost var r: Bytes, more: Bytes := raw[pointer..], Concat(source);
      Further(input, encoding.value, offset, r + more, made);
      assert (r + more)[width..] == raw[pointer + width..] + more;
      hide Allowed;
      hide EncodeUtf8;
      LastOf(made, buffer, at, EncodeUtf8(value));
      OneMore(buffer, at, unread, EncodeUtf8(value));
      Append(value);
      pointer, offset := pointer + width, offset + width;
      made, unread := made + EncodeUtf8(value), unread + 1;
    }

    method Append(value: nat)
      requires value <= 0x10_ffff
      modifies this`buffer
      ensures buffer == old(buffer) + EncodeUtf8(value)
    {
      if value <= 0x7f {
        buffer := buffer + [value];
      } else if value <= 0x7ff {
        buffer := buffer + [0xc0 + value / 0x40, 0x80 + value % 0x40];
      } else if value <= 0xffff {
        buffer := buffer + [0xe0 + value / 0x1000, 0x80 + value / 0x40 % 0x40, 0x80 + value % 0x40];
      } else {
        buffer := buffer + [0xf0 + value / 0x4_0000, 0x80 + value / 0x1000 % 0x40, 0x80 + value / 0x40 % 0x40, 0x80 + value % 0x40];
      }
    }

    /** The unread bytes move to the front of the buffer. */
    method Compact()
      requires Valid() && !failed
      modifies this`buffer, this`at
      ensures Valid() && Gone() == old(Gone())
    {
      hide Ahead, Concat, InChars;
      if 0 < at < |buffer| {
        buffer := buffer[at..];
        at := 0;
      } else if at == |buffer| {
        buffer := [];
        at := 0;
      }
    }

    /** After the last character, one NUL. */
    method EndOfInput()
      requires Valid() && !failed && encoding.Some? && !ended && eof && pointer == |raw|
      modifies this
      ensures Ready() && ended && input == old(input) && made == old(made) + [0] && Gone() == old(Gone())
    {
      hide Concat, Transcode, EncodingOf, MarkLength, InChars;
      assert raw[pointer..] + Concat(source) == [];
      LastOf(made, buffer, at, [0]);
      OneMore(buffer, at, unread, [0]);
      buffer := buffer + [0];
      made := made + [0];
      unread := unread + 1;
      ended := true;
    }

    /** Why a call fails: the handler did, or the input is not text, or it is too long. */
    ghost predicate Blamed()
      reads this
    {
      (broken && Concat(source) == []) || Meaning(input).None? || offset >= 0x7fff_ffff_ffff_ffff
    }

    /** Makes sure of `length` unread characters, or all there are and the NUL. */
    method UpdateBuffer(length: nat) returns (ok: bool)
      requires Ready()
      modifies this
      ensures Valid() && input == old(input) && old(made) <= made && Gone() == old(Gone())
      ensures ok ==> Ready() && (unread >= length || ended)
      ensures old(ended) ==> ok && unread == old(unread) && ended
      ensures ok && old(unread) < length && !ended ==> offset < 0x7fff_ffff_ffff_ffff
      ensures !ok ==> failed && Blamed()
    {
      hide Valid, Ahead, Concat, Meaning;
      FromReady();
      if (eof && pointer == |raw|) || unread >= length {
        return true;
      }
      if encoding.None? {
        ok := DetermineEncoding();
        if !ok {
          return;
        }
      }
      Compact();
      var first := true;
      while unread < length
        invariant Valid() && !failed && encoding.Some? && input == old(input) && old(made) <= made && Gone() == old(Gone())
        invariant !ended && (eof ==> first) && (first ==> unread < length)
        decreases |Concat(source)|, |raw| - pointer, first
      {
        Bounds();
        if !first || pointer == |raw| {
          ok := UpdateRawBuffer();
          if !ok {
            return;
          }
        }
        first := false;
        ok := DecodeRaw();
        if !ok {
          return;
        }
        if eof {
          EndOfInput();
          return true;
        }
        Bounds();
      }
      ok := true;
      if offset >= MAX_FILE_SIZE {
        Fail();
        ok := false;
      }
    }

    // ----- what the scanner takes -----

    /** The bytes passed over so far. */
    ghost function Taken(): Bytes
      reads this
      requires 0 <= Gone() <= |made|
    {
      made[..Gone()]
    }

    lemma GoneBounds()
      requires Valid()
      ensures 0 <= Gone() <= |made| && at <= |buffer| && InChars(buffer[at..], unread) && made[Gone()..] == buffer[at..]
    {
      hide Ahead, Concat, InChars;
    }

    /** The scanner's look ahead: nothing is done if there are enough characters. */
    method Cache(length: nat) returns (ok: bool)
      requires Ready()
      modifies this
      ensures Valid() && input == old(input) && old(made) <= made && Gone() == old(Gone())
      ensures ok ==> Ready() && (unread >= length || ended)
      ensures old(ended) || old(unread) >= length ==> ok && unread == old(unread) && ended == old(ended)
      ensures !ok ==> failed && Blamed()
    {
      hide Valid;
      if unread >= length {
        return true;
      }
      ok := UpdateBuffer(length);
    }

    /** One character is passed over, by the length its first byte tells. */
    method Skip() returns (c: Bytes)
      requires Ready() && unread > 0
      modifies this`at, this`unread
      ensures Ready() && unread == old(unread) - 1 && 0 <= old(Gone()) && c != [] && |c| == WidthOf(c[0])
      ensures Gone() == old(Gone()) + |c| <= |made| && made[old(Gone())..Gone()] == c && ended == old(ended)
    {
      hide Ahead, Concat, InChars, WidthOf;
      GoneBounds();
      PassedOver(made, buffer, at, unread);
      var w := WidthOf(buffer[at]);
      c := buffer[at..at + w];
      at := at + w;
      unread := unread - 1;
    }

    /** Any calls of the scanner: characters looked for, and characters passed over as long
        as there are any. What it passed over comes next in what was made. If it looked for
        what it passes over, nothing but the end stops it. */
    method Scan(calls: seq<Call>) returns (out: Bytes, passed: nat, ok: bool)
      requires Ready()
      modifies this
      ensures Valid() && input == old(input) && old(made) <= made && 0 <= old(Gone()) <= Gone() <= |made| && made[old(Gone())..Gone()] == out
      ensures InChars(out, passed) && passed <= Passes(calls)
      ensures ok ==> Ready() && (Covered(calls, old(unread)) && passed < Passes(calls) ==> ended && unread == 0)
      ensures !ok ==> failed && Blamed()
    {
      hide Valid, Blamed, WidthOf, InChars;
      out, passed, ok := [], 0, true;
      ghost var credit: nat := unread;
      NoChars();
      FromReady();
      GoneBounds();
      assert calls[0..] == calls && calls[|calls|..] == [];
      for i := 0 to |calls|
        invariant Ready() && input == old(input) && old(made) <= made
        invariant 0 <= old(Gone()) <= Gone() <= |made| && made[old(Gone())..Gone()] == out
        invariant InChars(out, passed) && passed + Passes(calls[i..]) <= Passes(calls)
        invariant Covered(calls, old(unread)) ==> Covered(calls[i..], credit)
        invariant credit <= unread || ended
        invariant Covered(calls, old(unread)) && passed + Passes(calls[i..]) < Passes(calls) ==> ended && unread == 0
      {
        assert calls[i..][0] == calls[i] && calls[i..][1..] == calls[i + 1..];
        match calls[i]
        case LookFor(n) =>
          ghost var before := made;
          ok := Cache(n);
          GoneBounds();
          assert made[old(Gone())..Gone()] == before[old(Gone())..Gone()];
          if !ok {
            return;
          }
          credit := if n > credit then n else credit;
        case Pass =>
          if unread > 0 {
            var c := PassOne(old(Gone()), out, passed);
            out, passed := out + c, passed + 1;
          }
          credit := if credit > 0 then credit - 1 else 0;
      }
    }

    method PassOne(ghost from: int, ghost out: Bytes, ghost passed: nat) returns (c: Bytes)
      requires Ready() && unread > 0 && 0 <= from <= Gone() <= |made| && made[from..Gone()] == out && InChars(out, passed)
      modifies this`at, this`unread
      ensures Ready() && unread == old(unread) - 1 && from <= Gone() <= |made| && made[from..Gone()] == out + c && InChars(out + c, passed + 1)
    {
      hide Valid, WidthOf, InChars;
      ghost var g := Gone();
      c := Skip();
      assert made[from..Gone()] == made[from..g] + made[g..Gone()];
      CharsJoin(out, passed, c);
    }

    /** All that was ever made, and so all that was passed over, is the start of what a good
        input means; when the end was seen and nothing is left, it is all of it. */
    lemma InMeaning()
      requires Valid() && Meaning(input).Some?
      ensures 0 <= Gone() <= |made| && Taken() <= made <= Meaning(input).value + [0]
      ensures Ready() && ended && unread == 0 ==> Taken() == Meaning(input).value + [0]
    {
      hide Ahead, Concat, Transcode, EncodingOf, MarkLength;
      GoneBounds();
      MadeInMeaning(input, encoding, offset, raw[pointer..] + Concat(source), made, ended);
      if Ready() && ended && unread == 0 {
        AllRead();
        assert buffer[at..] == [];
      }
    }

    lemma FromReady()
      requires Ready()
      ensures Valid() && !failed && (eof ==> ended) && (ended ==> encoding.Some? && eof && pointer == |raw|)
    {
      hide Concat, Transcode, InChars;
      if ended { assert raw[pointer..] == []; }
    }

    /** Once the end was seen, all the input was accepted, and whatever the pieces it came
        in, what was put into the buffer is its meaning and a NUL; UTF-8 is unchanged. */
    lemma AllRead()
      requires Ready() && ended
      ensures Meaning(input).Some? && made == Meaning(input).value + [0]
      ensures EncodingOf(input).Utf8? ==> made == input[MarkLength(input)..] + [0]
    {
      hide Ahead, Transcode, Concat, EncodingOf, MarkLength, InChars;
      Finished(input, encoding, offset, raw[pointer..] + Concat(source), made);
      if EncodingOf(input).Utf8? { Utf8Unchanged(input[MarkLength(input)..]); }
    }
  }

  lemma LastOf(made: Bytes, buffer: Bytes, at: nat, more: Bytes)
    requires at <= |buffer| && |buffer| - at <= |made| && made[|made| - (|buffer| - at)..] == buffer[at..]
    ensures var m, b := made + more, buffer + more; |b| - at <= |m| && m[|m| - (|b| - at)..] == b[at..]
  {
    var m, b := made + more, buffer + more;
    assert m[|m| - (|b| - at)..] == made[|made| - (|buffer| - at)..] + more;
    assert b[at..] == buffer[at..] + more;
  }
}
