/** Anchors: which nodes get one, in what order, and how it is spelled. */
module YamlAnchors {
  import opened YamlGraph

  /** What the emitter keeps about a node. */
  datatype Mark = Mark(references: nat, anchor: nat, serialized: bool)

  datatype Anchoring = Anchoring(marks: seq<Mark>, last: nat)

  /** A node is met: counted, and given the next anchor the second time. */
  function Meet(a: Anchoring, i: nat): (r: Anchoring)
    requires 1 <= i <= |a.marks|
    ensures |r.marks| == |a.marks|
  {
    var m := a.marks[i - 1].(references := a.marks[i - 1].references + 1);
    if m.references == 2 then Anchoring(a.marks[i - 1 := m.(anchor := a.last + 1)], a.last + 1)
    else Anchoring(a.marks[i - 1 := m], a.last)
  }

  ghost function MeetSeq(a: Anchoring, s: seq<nat>): (r: Anchoring)
    requires Within(|a.marks|, s)
    ensures |r.marks| == |a.marks|
    decreases |s|
  {
    if s == [] then a else MeetSeq(Meet(a, s[0]), s[1..])
  }

  lemma {:induction false} MeetJoin(a: Anchoring, s: seq<nat>, t: seq<nat>)
    requires Within(|a.marks|, s) && Within(|a.marks|, t)
    ensures Within(|a.marks|, s + t)
    ensures MeetSeq(a, s + t) == MeetSeq(MeetSeq(a, s), t)
    decreases |s|
  {
    if s == [] {
      assert s + t == t;
    } else {
      assert (s + t)[1..] == s[1..] + t && (s + t)[0] == s[0];
      MeetJoin(Meet(a, s[0]), s[1..], t);
    }
  }

  function Count(s: seq<nat>, x: nat): nat {
    if s == [] then 0 else (if s[0] == x then 1 else 0) + Count(s[1..], x)
  }

  lemma {:induction false} CountJoin(s: seq<nat>, t: seq<nat>, x: nat)
    ensures Count(s + t, x) == Count(s, x) + Count(t, x)
  {
    if s == [] {
      assert s + t == t;
    } else {
      assert (s + t)[1..] == s[1..] + t && (s + t)[0] == s[0];
      CountJoin(s[1..], t, x);
    }
  }

  /** Exactly the nodes met twice have an anchor, and no two have the same. */
  ghost predicate Anchored(a: Anchoring) {
    && (forall j | 0 <= j < |a.marks| :: (a.marks[j].anchor != 0 <==> a.marks[j].references >= 2) && a.marks[j].anchor <= a.last)
    && (forall j, k | 0 <= j < k < |a.marks| && a.marks[j].anchor != 0 :: a.marks[j].anchor != a.marks[k].anchor)
  }

  lemma {:induction false} MetAnchored(a: Anchoring, s: seq<nat>)
    requires Anchored(a) && Within(|a.marks|, s)
    ensures Anchored(MeetSeq(a, s))
    decreases |s|
  {
    if s != [] {
      assert Anchored(Meet(a, s[0]));
      MetAnchored(Meet(a, s[0]), s[1..]);
    }
  }

  lemma {:induction false} MetCounted(a: Anchoring, s: seq<nat>, j: nat)
    requires j < |a.marks| && Within(|a.marks|, s)
    ensures MeetSeq(a, s).marks[j].references == a.marks[j].references + Count(s, j + 1)
    ensures MeetSeq(a, s).marks[j].serialized == a.marks[j].serialized
    decreases |s|
  {
    if s != [] {
      MetCounted(Meet(a, s[0]), s[1..], j);
    }
  }

  // ----- spelling -----

  function Digits(n: nat): string {
    var d := '0' + (n % 10) as char;
    if n < 10 then [d] else Digits(n / 10) + [d]
  }

  /** The field width of three in the anchor template. */
  function Padded(s: string): string {
    if |s| == 1 then "00" + s else if |s| == 2 then "0" + s else s
  }

  function AnchorText(id: nat): string {
    "id" + Padded(Digits(id))
  }

  function Value(s: string): int {
    if s == [] then 0 else 10 * Value(s[..|s| - 1]) + (s[|s| - 1] as int - '0' as int)
  }

  lemma {:induction false} DigitsValue(n: nat)
    ensures Value(Digits(n)) == n
  {
    var d := '0' + (n % 10) as char;
    if n >= 10 {
      DigitsValue(n / 10);
      assert (Digits(n / 10) + [d])[..|Digits(n / 10)|] == Digits(n / 10);
    } else {
      assert Digits(n)[..0] == [];
    }
  }

  lemma {:induction false} ZeroValue(s: string)
    ensures Value("0" + s) == Value(s)
  {
    if s != [] {
      ZeroValue(s[..|s| - 1]);
      assert ("0" + s)[..|s|] == "0" + s[..|s| - 1];
    }
  }

  /** Different anchors are spelled differently. */
  lemma AnchorTextInjective(a: nat, b: nat)
    requires AnchorText(a) == AnchorText(b)
    ensures a == b
  {
    PaddedValue(a);
    PaddedValue(b);
    assert AnchorText(a)[2..] == Padded(Digits(a)) && AnchorText(b)[2..] == Padded(Digits(b));
  }

  lemma PaddedValue(n: nat)
    ensures Value(Padded(Digits(n))) == n
  {
    var s := Digits(n);
    DigitsValue(n);
    ZeroValue(s);
    ZeroValue("0" + s);
    assert "0" + ("0" + s) == "00" + s;
  }

  function Power10(k: nat): nat {
    if k == 0 then 1 else 10 * Power10(k - 1)
  }

  lemma {:induction false} DigitsLength(n: nat, k: nat)
    requires n < Power10(k) && k >= 1
    ensures |Digits(n)| <= k
  {
    if n >= 10 {
      DigitsLength(n / 10, k - 1);
    }
  }

  const ANCHOR_TEMPLATE_LENGTH: nat := 16

  /** An anchor with its final zero fits into the buffer made for it. */
  lemma AnchorFits(id: nat)
    requires id < 0x8000_0000
    ensures |AnchorText(id)| + 1 <= ANCHOR_TEMPLATE_LENGTH
  {
    assert Power10(5) == 100000;
    assert Power10(10) == 10000000000;
    DigitsLength(id, 10);
  }
}
