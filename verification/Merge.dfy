/** Merging cloud-config documents: internal/cloudinit/merge.go. Documents are
    parsed YAML; parsing and rendering are not modelled. */
module Merge {

  datatype Node = Mapping(fields: Doc) | List(items: seq<Node>) | Scalar(text: string)
  type Doc = map<string, Node>

  /** What a key that both documents have ends up with. */
  function Combine(x: Node, y: Node): Node
    decreases x
  {
    if x.Mapping? && y.Mapping? then
      Mapping(map k | k in x.fields.Keys + y.fields.Keys ::
        if k !in x.fields then y.fields[k]
        else if k !in y.fields then x.fields[k]
        else Combine(x.fields[k], y.fields[k]))
    else if x.List? && y.List? then List(x.items + y.items)
    else y
  }

  function Merge(a: Doc, b: Doc): Doc { Combine(Mapping(a), Mapping(b)).fields }

  /** mergeMaps: `into` is brought up to date key by key, in whatever order Go
      walks `from`. */
  method MergeMaps(into: Doc, from: Doc) returns (out: Doc)
    ensures out == Merge(into, from)
    decreases Mapping(from)
  {
    out := into;
    var left := from.Keys;
    while left != {}
      invariant left <= from.Keys
      invariant out.Keys == into.Keys + (from.Keys - left)
      invariant forall k | k in from && k !in left ::
        out[k] == if k in into then Combine(into[k], from[k]) else from[k]
      invariant forall k | k in into && (k !in from || k in left) :: out[k] == into[k]
      decreases left
    {
      var k :| k in left;
      var v := from[k];
      left := left - {k};
      if k !in out {
        out := out[k := v];
        continue;
      }
      var was := out[k];
      if was.Mapping? && v.Mapping? {
        var inner := MergeMaps(was.fields, v.fields);
        out := out[k := Mapping(inner)];
      } else if was.List? && v.List? {
        out := out[k := List(was.items + v.items)];
      } else {
        out := out[k := v];
      }
    }
  }

  /** A document that is empty parses as nothing and is skipped. */
  datatype Parsed = Empty | Parsed(doc: Doc)

  function MergeAll(docs: seq<Doc>): Doc {
    if docs == [] then map[] else Merge(MergeAll(docs[..|docs| - 1]), docs[|docs| - 1])
  }

  function AsDocs(docs: seq<Parsed>): seq<Doc> {
    seq(|docs|, i requires 0 <= i < |docs| => if docs[i].Empty? then map[] else docs[i].doc)
  }

  /** The fold of mergeDocs. */
  method MergeDocs(docs: seq<Parsed>) returns (merged: Doc)
    ensures merged == MergeAll(AsDocs(docs))
  {
    merged := map[];
    ghost var all := AsDocs(docs);
    for i := 0 to |docs|
      invariant merged == MergeAll(all[..i])
    {
      assert all[..i + 1][..i] == all[..i];
      EmptyIsIdentity(merged);
      if docs[i].Empty? { continue; }
      merged := MergeMaps(merged, docs[i].doc);
    }
    assert all[..|docs|] == all;
  }

  lemma EmptyIsIdentity(a: Doc)
    ensures Merge(a, map[]) == a && Merge(map[], a) == a
  {
  }

  // ---- associativity ------------------------------------------------------------

  /** x adds nothing to z: nowhere a list item, nowhere a key. */
  predicate Absorbed(x: Node, z: Node)
    decreases x
  {
    if x.Mapping? && z.Mapping? then forall k | k in x.fields :: k in z.fields && Absorbed(x.fields[k], z.fields[k])
    else if x.List? && z.List? then x.items == []
    else true
  }

  lemma {:induction false} AbsorbedExact(x: Node, z: Node)
    ensures Combine(x, z) == z <==> Absorbed(x, z)
    decreases x
  {
    if x.Mapping? && z.Mapping? {
      forall k | k in x.fields && k in z.fields { AbsorbedExact(x.fields[k], z.fields[k]); }
      var c := Combine(x, z);
      if Absorbed(x, z) {
        assert c.fields == z.fields;
      } else if c == z {
        forall k | k in x.fields ensures k in z.fields && Absorbed(x.fields[k], z.fields[k]) {
          assert k in c.fields;
          assert c.fields[k] == z.fields[k];
        }
      }
    } else if x.List? && z.List? {
      assert |x.items + z.items| == |x.items| + |z.items|;
    }
  }

  predicate SameContainer(x: Node, z: Node) { (x.Mapping? && z.Mapping?) || (x.List? && z.List?) }

  /** Nowhere does a value of another kind stand between two mappings or two
      lists of which the first has something to add. */
  predicate NoneLost(x: Node, y: Node, z: Node)
    decreases x
  {
    if x.Mapping? && y.Mapping? && z.Mapping? then
      forall k | k in x.fields && k in y.fields && k in z.fields :: NoneLost(x.fields[k], y.fields[k], z.fields[k])
    else SameContainer(x, z) && !SameContainer(x, y) ==> Absorbed(x, z)
  }

  /** How three documents are bracketed makes no difference exactly when nothing
      is lost in between. */
  lemma {:induction false} AssociativeExact(x: Node, y: Node, z: Node)
    ensures Combine(Combine(x, y), z) == Combine(x, Combine(y, z)) <==> NoneLost(x, y, z)
    decreases x
  {
    AbsorbedExact(x, z);
    if x.Mapping? && y.Mapping? && z.Mapping? {
      MappingsAssociative(x, y, z);
    } else if x.List? && y.List? && z.List? {
      assert (x.items + y.items) + z.items == x.items + (y.items + z.items);
    }
  }

  lemma {:induction false} MappingsAssociative(x: Node, y: Node, z: Node)
    requires x.Mapping? && y.Mapping? && z.Mapping?
    ensures Combine(Combine(x, y), z) == Combine(x, Combine(y, z)) <==> NoneLost(x, y, z)
    decreases x, 0
  {
    var l, r := Combine(Combine(x, y), z).fields, Combine(x, Combine(y, z)).fields;
    assert l.Keys == r.Keys;
    forall k | k in l && !(k in x.fields && k in y.fields && k in z.fields) ensures l[k] == r[k] {
    }
    forall k | k in x.fields && k in y.fields && k in z.fields
      ensures l[k] == r[k] <==> NoneLost(x.fields[k], y.fields[k], z.fields[k])
    {
      AssociativeExact(x.fields[k], y.fields[k], z.fields[k]);
    }
    if l == r {
      forall k | k in x.fields && k in y.fields && k in z.fields ensures l[k] == r[k] { assert k in l; }
    }
  }

  /** The documents agree on the kind of everything they share. */
  predicate Agree(x: Node, y: Node)
    decreases x
  {
    if x.Mapping? && y.Mapping? then forall k | k in x.fields && k in y.fields :: Agree(x.fields[k], y.fields[k])
    else (x.List? && y.List?) || (x.Scalar? && y.Scalar?)
  }

  /** In particular, documents that agree can be merged in any bracketing. */
  lemma {:induction false} AgreeingIsAssociative(x: Node, y: Node, z: Node)
    requires Agree(x, y) && Agree(y, z)
    ensures Combine(Combine(x, y), z) == Combine(x, Combine(y, z))
  {
    NothingLostInAgreement(x, y, z);
    AssociativeExact(x, y, z);
  }

  lemma {:induction false} NothingLostInAgreement(x: Node, y: Node, z: Node)
    requires Agree(x, y) && Agree(y, z)
    ensures NoneLost(x, y, z)
    decreases x
  {
    if x.Mapping? && y.Mapping? && z.Mapping? {
      forall k | k in x.fields && k in y.fields && k in z.fields
        ensures NoneLost(x.fields[k], y.fields[k], z.fields[k])
      {
        NothingLostInAgreement(x.fields[k], y.fields[k], z.fields[k]);
      }
    }
  }

  // ---- what is at a path ----------------------------------------------------------

  datatype Found = Nothing | At(node: Node)

  function Lookup(x: Node, path: seq<string>): Found
    decreases |path|
  {
    if path == [] then At(x)
    else if x.Mapping? && path[0] in x.fields then Lookup(x.fields[path[0]], path[1..])
    else Nothing
  }

  function Both(f: Found, g: Found): Found {
    if f.Nothing? then g else if g.Nothing? then f else At(Combine(f.node, g.node))
  }

  lemma {:induction false} LookupCombined(x: Node, y: Node, path: seq<string>)
    requires Agree(x, y)
    ensures Lookup(Combine(x, y), path) == Both(Lookup(x, path), Lookup(y, path))
    decreases |path|
  {
    if path != [] && x.Mapping? && y.Mapping? && path[0] in x.fields && path[0] in y.fields {
      LookupCombined(x.fields[path[0]], y.fields[path[0]], path[1..]);
    }
  }

  lemma {:induction false} CombinedAgrees(x: Node, y: Node, z: Node)
    requires Agree(x, z) && Agree(y, z)
    ensures Agree(Combine(x, y), z)
    decreases x
  {
    if x.Mapping? && y.Mapping? && z.Mapping? {
      var c := Combine(x, y);
      forall k | k in c.fields && k in z.fields ensures Agree(c.fields[k], z.fields[k]) {
        if k in x.fields && k in y.fields { CombinedAgrees(x.fields[k], y.fields[k], z.fields[k]); }
      }
    }
  }

  ghost predicate AllAgree(docs: seq<Doc>) {
    forall i, j | 0 <= i < j < |docs| :: Agree(Mapping(docs[i]), Mapping(docs[j]))
  }

  lemma {:induction false} FoldAgrees(docs: seq<Doc>, d: Doc)
    requires forall i | 0 <= i < |docs| :: Agree(Mapping(docs[i]), Mapping(d))
    ensures Agree(Mapping(MergeAll(docs)), Mapping(d))
  {
    if docs != [] {
      FoldAgrees(docs[..|docs| - 1], d);
      CombinedAgrees(Mapping(MergeAll(docs[..|docs| - 1])), Mapping(docs[|docs| - 1]), Mapping(d));
    }
  }

  /** The items all the documents list at a path, in the documents' order. */
  function ListedAt(docs: seq<Doc>, path: seq<string>): seq<Node> {
    if docs == [] then []
    else
      var f := Lookup(Mapping(docs[|docs| - 1]), path);
      ListedAt(docs[..|docs| - 1], path) + (if f.At? && f.node.List? then f.node.items else [])
  }

  /** The last thing any document has at a path. */
  function LastAt(docs: seq<Doc>, path: seq<string>): Found {
    if docs == [] then Nothing
    else
      var f := Lookup(Mapping(docs[|docs| - 1]), path);
      if f.At? then f else LastAt(docs[..|docs| - 1], path)
  }

  /** For documents that agree: a list of the merged document is all the documents'
      items in order, a scalar is the last document's, and nothing is there that
      no document has, nor missing that one has. */
  lemma {:induction false} MergedAt(docs: seq<Doc>, path: seq<string>)
    requires AllAgree(docs) && path != []
    ensures
      var f := Lookup(Mapping(MergeAll(docs)), path);
      && (f.Nothing? <==> LastAt(docs, path).Nothing?)
      && (f.At? && f.node.List? ==> f.node.items == ListedAt(docs, path))
      && (f.At? && !f.node.List? ==> ListedAt(docs, path) == [])
      && (f.At? && f.node.Scalar? ==> f == LastAt(docs, path))
  {
    if docs != [] {
      var front, last := docs[..|docs| - 1], docs[|docs| - 1];
      MergedAt(front, path);
      FoldAgrees(front, last);
      LookupCombined(Mapping(MergeAll(front)), Mapping(last), path);
      AgreeAt(Mapping(MergeAll(front)), Mapping(last), path);
      if Lookup(Mapping(MergeAll(front)), path).Nothing? { NothingListed(front, path); }
    }
  }

  lemma {:induction false} AgreeAt(x: Node, y: Node, path: seq<string>)
    requires Agree(x, y)
    ensures Lookup(x, path).At? && Lookup(y, path).At? ==> Agree(Lookup(x, path).node, Lookup(y, path).node)
    decreases |path|
  {
    if path != [] && x.Mapping? && y.Mapping? && path[0] in x.fields && path[0] in y.fields {
      AgreeAt(x.fields[path[0]], y.fields[path[0]], path[1..]);
    }
  }

  lemma {:induction false} NothingListed(docs: seq<Doc>, path: seq<string>)
    requires LastAt(docs, path).Nothing?
    ensures ListedAt(docs, path) == []
  {
    if docs != [] { NothingListed(docs[..|docs| - 1], path); }
  }

  /** A scalar between two lists hides what the first list has. */
  lemma MixedKindsDiffer()
    ensures
      var x, y, z := List([Scalar("a")]), Scalar("b"), List([Scalar("c")]);
      !NoneLost(x, y, z) && Combine(Combine(x, y), z) != Combine(x, Combine(y, z))
  {
  }

  /** What two documents make of a key: what the only one says that has it; mappings and
      lists put together; the later one of anything else. */
  lemma MergedKey(a: Doc, b: Doc, k: string)
    ensures k in Merge(a, b) <==> k in a || k in b
    ensures k in a && k !in b ==> Merge(a, b)[k] == a[k]
    ensures k !in a && k in b ==> Merge(a, b)[k] == b[k]
    ensures k in a && k in b && a[k].List? && b[k].List? ==> Merge(a, b)[k] == List(a[k].items + b[k].items)
    ensures k in a && k in b && a[k].Mapping? && b[k].Mapping? ==>
      Merge(a, b)[k] == Mapping(Merge(a[k].fields, b[k].fields))
    ensures k in a && k in b && b[k].Scalar? ==> Merge(a, b)[k] == b[k]
    ensures k in a && k in b && a[k].Scalar? ==> Merge(a, b)[k] == b[k]
    ensures k in a && k in b && a[k].List? != b[k].List? ==> Merge(a, b)[k] == b[k]
  {
    if k in a && k in b {
      assert Merge(a, b)[k] == Combine(a[k], b[k]);
      CombineKinds(a[k], b[k]);
    }
  }

  lemma CombineKinds(x: Node, y: Node)
    ensures x.List? && y.List? ==> Combine(x, y) == List(x.items + y.items)
    ensures x.Mapping? && y.Mapping? ==> Combine(x, y) == Mapping(Merge(x.fields, y.fields))
    ensures !(x.List? && y.List?) && !(x.Mapping? && y.Mapping?) ==> Combine(x, y) == y
  {
  }

  /** A document that is empty changes nothing, wherever it stands. */
  lemma {:induction false} EmptySkipped(a: seq<Parsed>, b: seq<Parsed>)
    ensures MergeAll(AsDocs(a + [Empty] + b)) == MergeAll(AsDocs(a + b))
    decreases |b|
  {
    var with, without := AsDocs(a + [Empty] + b), AsDocs(a + b);
    if b == [] {
      assert with == without + [map[]];
      assert with[..|with| - 1] == without;
      EmptyIsIdentity(MergeAll(without));
    } else {
      var front := b[..|b| - 1];
      EmptySkipped(a, front);
      assert with[..|with| - 1] == AsDocs(a + [Empty] + front);
      assert without[..|without| - 1] == AsDocs(a + front);
      assert with[|with| - 1] == without[|without| - 1];
    }
  }
}
