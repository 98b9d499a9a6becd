/** What tags and omitted nodes in a document mean. */
module YamlTags {
  import opened Options
  import opened YamlDumper
  import opened YamlGraph
  import opened YamlLoader
  import opened P = YamlParser

  predicate Distinct(ds: seq<Directive>) {
    forall i, j | 0 <= i < j < |ds| :: ds[i].handle != ds[j].handle
  }

  lemma {:induction false} DeclaredExactly(ds: seq<Directive>, handle: string)
    ensures Declared(ds, handle).None? <==> forall k | 0 <= k < |ds| :: ds[k].handle != handle
    ensures Declared(ds, handle).Some? ==> Directive(handle, Declared(ds, handle).value) in ds
  {
    if ds != [] && ds[0].handle != handle {
      DeclaredExactly(ds[1..], handle);
      forall k | 0 <= k < |ds| && ds[k].handle == handle ensures ds[1..][k - 1].handle == handle { }
    }
  }

  /** A document's own directive counts before a default one. */
  lemma {:induction false} DeclaredFirst(ds: seq<Directive>, d: Directive, handle: string)
    ensures Declared(ds + [d], handle) ==
      if Declared(ds, handle).Some? then Declared(ds, handle) else if d.handle == handle then Some(d.prefix) else None
  {
    if ds == [] {
      assert [] + [d] == [d] && [d][1..] == [];
    } else {
      assert (ds + [d])[1..] == ds[1..] + [d];
      DeclaredFirst(ds[1..], d, handle);
    }
  }

  /** With the directives of a document: a handle it declares stands for its prefix; "!" and
      "!!" need not be declared; and any other is an error. */
  lemma Defaulted(ds: seq<Directive>, handle: string)
    ensures Declared(Default(ds), handle) ==
      if Declared(ds, handle).Some? then Declared(ds, handle)
      else if handle == "!" then Some("!") else if handle == "!!" then Some("tag:yaml.org,2002:") else None
  {
    var first, second := Directive("!", "!"), Directive("!!", "tag:yaml.org,2002:");
    DeclaredFirst(ds, first, handle);
    DeclaredFirst(ds, first, "!!");
    DeclaredFirst(ds, second, handle);
    DeclaredFirst(ds + [first], second, handle);
  }

  /** The full tag of a node in a document with these directives: the prefix its handle
      stands for and then its suffix, the suffix alone without a handle, and none at all for
      a node without a tag. */
  lemma TagMeans(ds: seq<Directive>, anchor: Option<string>, handle: string, suffix: string)
    requires Distinct(ds)
    ensures var full := FullTag(Default(ds), Properties(anchor, Some(handle), suffix));
      && (handle == "" ==> full == Some(Some(suffix)))
      && (handle != "" ==> forall d | d in ds && d.handle == handle :: full == Some(Some(d.prefix + suffix)))
      && (handle != "" && (forall d | d in ds :: d.handle != handle) ==>
          full == if handle == "!" then Some(Some("!" + suffix))
                  else if handle == "!!" then Some(Some("tag:yaml.org,2002:" + suffix)) else None)
    ensures FullTag(Default(ds), Properties(anchor, None, suffix)) == Some(None)
  {
    Defaulted(ds, handle);
    DeclaredExactly(ds, handle);
    hide Default;
    if handle != "" {
      forall d | d in ds && d.handle == handle
        ensures FullTag(Default(ds), Properties(anchor, Some(handle), suffix)) == Some(Some(d.prefix + suffix))
      {
        var k :| 0 <= k < |ds| && ds[k] == d;
        var p := Declared(ds, handle).value;
        var j :| 0 <= j < |ds| && ds[j] == Directive(handle, p);
        assert j == k;
      }
    }
  }

  /** A node that is left out is an empty plain scalar without anchor and tag, whose tag may be
      left out, and is loaded as an empty string. */
  lemma OmittedLoads(st: Loading)
    requires |st.nodes| < LIMIT && st.ctx == []
    ensures EMPTY_SCALAR == ScalarEvent(None, None, "", true)
    ensures YamlLoader.Step(st, EMPTY_SCALAR) == Going(st.(nodes := st.nodes + [Scalar("tag:yaml.org,2002:str", "")]))
  {
  }
}
