/**
 A parsed XML filing as a tree, with the two ways the scripts query it:
 XPath location paths of the form `//irs:a/irs:b/irs:c` (through the `xpath`
 package) and `getElementsByTagName` (through the DOM).

 Every element is taken to be in the IRS e-file namespace, so a tag is its
 local name. Attributes, comments and processing instructions are not modelled.
 */
module XmlTree {
  import opened Outcomes

  datatype Node = Element(tag: string, kids: seq<Node>) | Text(content: string)

  /** The parsed document; `root` is its document element. */
  datatype Document = Document(root: Node)

  /** `node.textContent`: the text of every text node below `n`, in document order. */
  function TextContent(n: Node): string
    decreases n
  {
    match n
    case Text(c) => c
    case Element(_, kids) => TextContentAll(kids)
  }

  function TextContentAll(ns: seq<Node>): string
    decreases ns
  {
    if ns == [] then [] else TextContent(ns[0]) + TextContentAll(ns[1..])
  }

  /** An element together with the tags from the outermost ancestor down to the element itself. */
  datatype Located = Located(chain: seq<string>, node: Node)

  /** Every element of the subtree `n`, in document order; `above` holds the tags of its ancestors. */
  function Preorder(n: Node, above: seq<string>): seq<Located>
    decreases n
  {
    match n
    case Text(_) => []
    case Element(t, kids) => [Located(above + [t], n)] + PreorderAll(kids, above + [t])
  }

  function PreorderAll(ns: seq<Node>, above: seq<string>): seq<Located>
    decreases ns
  {
    if ns == [] then [] else Preorder(ns[0], above) + PreorderAll(ns[1..], above)
  }

  /** The text of an element holding one text node is that text. */
  lemma LeafText(tag: string, s: string)
    ensures TextContent(Element(tag, [Text(s)])) == s
  {
    assert [Text(s)][1..] == [];
    assert TextContentAll([Text(s)]) == TextContent(Text(s)) + TextContentAll([]);
    assert s + [] == s;
  }

  /** The chain of tags ends with `path`. */
  predicate HasSuffix(chain: seq<string>, path: seq<string>) {
    |path| <= |chain| && chain[|chain| - |path|..] == path
  }

  /** The elements of `ls` whose tag chain ends with `path`, in order. */
  function Matching(ls: seq<Located>, path: seq<string>): seq<Node> {
    if ls == [] then []
    else (if HasSuffix(ls[0].chain, path) then [ls[0].node] else []) + Matching(ls[1..], path)
  }

  /**
   XPath `//irs:p1/irs:p2/…/irs:pn` evaluated with `doc` as context node:
   every element named `pn` whose parent is named `pn-1` and so on up to
   `p1`, `p1` itself anywhere in the document, in document order.
   */
  function Select(doc: Document, path: seq<string>): seq<Node> {
    Matching(Preorder(doc.root, []), path)
  }

  /** `select(path, doc)?.[0]?.textContent`: the text of the first match, if there is one. */
  function FirstText(doc: Document, path: seq<string>): (r: Option<string>)
    ensures r.None? <==> Select(doc, path) == []
  {
    var found := Select(doc, path);
    if found == [] then None else Some(TextContent(found[0]))
  }

  /** `element.getElementsByTagName(tag)`: the elements strictly below `e` named `tag`, in document order. */
  function ByTag(e: Node, tag: string): seq<Node> {
    match e
    case Text(_) => []
    case Element(_, kids) => Matching(PreorderAll(kids, []), [tag])
  }

  /** `element.getElementsByTagName(tag).item(0)` */
  function FirstByTag(e: Node, tag: string): Option<Node> {
    var found := ByTag(e, tag);
    if found == [] then None else Some(found[0])
  }

  lemma {:induction false} MatchingAppend(a: seq<Located>, b: seq<Located>, path: seq<string>)
    ensures Matching(a + b, path) == Matching(a, path) + Matching(b, path)
    decreases |a|
  {
    if a == [] {
      assert a + b == b;
    } else {
      var rest := a[1..];
      assert (a + b)[0] == a[0];
      assert (a + b)[1..] == rest + b;
      MatchingAppend(rest, b, path);
      var hd := if HasSuffix(a[0].chain, path) then [a[0].node] else [];
      assert Matching(a, path) == hd + Matching(rest, path);
      assert Matching(a + b, path) == hd + Matching(rest + b, path);
    }
  }

  /** A leaf element contributes only itself to the document order. */
  lemma PreorderLeaf(t: string, s: string, above: seq<string>)
    ensures Preorder(Element(t, [Text(s)]), above) == [Located(above + [t], Element(t, [Text(s)]))]
  {
    assert PreorderAll([Text(s)], above + [t]) == Preorder(Text(s), above + [t]) + PreorderAll([], above + [t]);
  }

  lemma PreorderSingle(a: Node, above: seq<string>)
    ensures PreorderAll([a], above) == Preorder(a, above)
  {
    assert PreorderAll([a], above) == Preorder(a, above) + PreorderAll([], above);
  }

  lemma PreorderPair(a: Node, b: Node, above: seq<string>)
    ensures PreorderAll([a, b], above) == Preorder(a, above) + Preorder(b, above)
  {
    assert [a, b][1..] == [b];
    assert PreorderAll([b], above) == Preorder(b, above) + PreorderAll([], above);
  }

  lemma PreorderFour(a: Node, b: Node, c: Node, d: Node, above: seq<string>)
    ensures PreorderAll([a, b, c, d], above) == Preorder(a, above) + Preorder(b, above) + Preorder(c, above) + Preorder(d, above)
  {
    assert [a, b, c, d][1..] == [b, c, d];
    assert [b, c, d][1..] == [c, d];
    PreorderPair(c, d, above);
  }

  /** Three text leaves followed by one more element list as three located leaves, then that element's preorder. */
  lemma PreorderLeavesThen(t1: string, s1: string, t2: string, s2: string, t3: string, s3: string, d: Node, above: seq<string>)
    ensures PreorderAll([Element(t1, [Text(s1)]), Element(t2, [Text(s2)]), Element(t3, [Text(s3)]), d], above)
         == [Located(above + [t1], Element(t1, [Text(s1)])),
             Located(above + [t2], Element(t2, [Text(s2)])),
             Located(above + [t3], Element(t3, [Text(s3)]))] + Preorder(d, above)
  {
    PreorderLeaf(t1, s1, above);
    PreorderLeaf(t2, s2, above);
    PreorderLeaf(t3, s3, above);
    PreorderFour(Element(t1, [Text(s1)]), Element(t2, [Text(s2)]), Element(t3, [Text(s3)]), d, above);
  }

  /** The first match is the first located element whose chain ends with the path. */
  lemma {:induction false} MatchingFirst(ls: seq<Located>, path: seq<string>, k: nat)
    requires k < |ls| && HasSuffix(ls[k].chain, path)
    requires forall m :: 0 <= m < k ==> !HasSuffix(ls[m].chain, path)
    ensures Matching(ls, path) != [] && Matching(ls, path)[0] == ls[k].node
    decreases k
  {
    if k > 0 {
      MatchingFirst(ls[1..], path, k - 1);
    }
  }

  /** Nothing matches when no chain ends with the path. */
  lemma {:induction false} MatchingNone(ls: seq<Located>, path: seq<string>)
    requires forall m :: 0 <= m < |ls| ==> !HasSuffix(ls[m].chain, path)
    ensures Matching(ls, path) == []
    decreases |ls|
  {
    if ls != [] {
      MatchingNone(ls[1..], path);
    }
  }

  /** Something matches when some chain ends with the path. */
  lemma {:induction false} MatchingSome(ls: seq<Located>, path: seq<string>, k: nat)
    requires k < |ls| && HasSuffix(ls[k].chain, path)
    ensures Matching(ls, path) != []
    decreases k
  {
    if k > 0 {
      MatchingSome(ls[1..], path, k - 1);
    }
  }

  /** A chain ending with a non-empty path ends with the path's last tag. */
  lemma SuffixLast(chain: seq<string>, path: seq<string>)
    requires path != [] && HasSuffix(chain, path)
    ensures chain[|chain| - 1] == path[|path| - 1]
  {
    assert chain[|chain| - |path|..][|path| - 1] == chain[|chain| - 1];
  }

  /**
   Within a subtree, an element matching `path + [t]` has its parent matching
   `path`: the parent lies either inside the subtree or is the innermost
   ancestor recorded in `above`.
   */
  lemma {:induction false} ParentInSubtree(n: Node, above: seq<string>, path: seq<string>, t: string)
    requires Matching(Preorder(n, above), path + [t]) != []
    ensures HasSuffix(above, path) || Matching(Preorder(n, above), path) != []
    decreases n
  {
    match n
    case Element(tag, kids) =>
      var chain := above + [tag];
      var head := [Located(chain, n)];
      var below := PreorderAll(kids, chain);
      assert Preorder(n, above) == head + below;
      MatchingAppend(head, below, path + [t]);
      MatchingAppend(head, below, path);
      if HasSuffix(chain, path + [t]) {
        SuffixOfParent(above, tag, path, t);
      } else {
        assert Matching(head, path + [t]) == [];
        ParentInForest(kids, chain, path, t);
        if HasSuffix(chain, path) {
          assert Matching(head, path) == [n];
        }
      }
  }

  /** Dropping the last tag from a chain and from a path that ends it keeps the suffix relation. */
  lemma SuffixOfParent(above: seq<string>, tag: string, path: seq<string>, t: string)
    requires HasSuffix(above + [tag], path + [t])
    ensures HasSuffix(above, path)
  {
    var chain := above + [tag];
    assert chain[|chain| - |path + [t]|..] == path + [t];
    assert above[|above| - |path|..] == (path + [t])[..|path|];
  }

  lemma {:induction false} ParentInForest(ns: seq<Node>, above: seq<string>, path: seq<string>, t: string)
    requires Matching(PreorderAll(ns, above), path + [t]) != []
    ensures HasSuffix(above, path) || Matching(PreorderAll(ns, above), path) != []
    decreases ns
  {
    MatchingAppend(Preorder(ns[0], above), PreorderAll(ns[1..], above), path + [t]);
    MatchingAppend(Preorder(ns[0], above), PreorderAll(ns[1..], above), path);
    if Matching(Preorder(ns[0], above), path + [t]) != [] {
      ParentInSubtree(ns[0], above, path, t);
    } else {
      ParentInForest(ns[1..], above, path, t);
    }
  }

  /** If `//…/p/t` matches anything then so does `//…/p`: a child cannot match without its parent. */
  lemma ParentSelected(doc: Document, path: seq<string>, t: string)
    requires path != []
    requires Select(doc, path + [t]) != []
    ensures Select(doc, path) != []
  {
    ParentInSubtree(doc.root, [], path, t);
  }
}
