/** An abstract parsed HTML document and the two BeautifulSoup queries the
    scraper uses: `find` (first match) and `find_all` (every match), both
    searching the descendants of an element in document order. */
module Html {

  datatype Node =
    | Element(tag: string, classes: seq<string>, children: seq<Node>)
    | TextNode(text: string)

  /** The selector `tag` with `class_=cls`: the element carries `cls` among
      its classes. */
  predicate Matches(n: Node, tag: string, cls: string) {
    n.Element? && n.tag == tag && cls in n.classes
  }

  /** Every node of a forest, each followed by its own descendants, in
      document order. */
  function Flatten(ns: seq<Node>): seq<Node>
    decreases ns
  {
    if ns == [] then []
    else [ns[0]] + Descendants(ns[0]) + Flatten(ns[1..])
  }

  /** The descendants of a node in document order (the node itself excluded). */
  function Descendants(n: Node): seq<Node>
    decreases n
  {
    if n.Element? then Flatten(n.children) else []
  }

  /** The matching elements of a sequence, in order. */
  function Filter(ns: seq<Node>, tag: string, cls: string): (r: seq<Node>)
    ensures forall i :: 0 <= i < |r| ==> Matches(r[i], tag, cls)
    ensures forall x :: x in r <==> x in ns && Matches(x, tag, cls)
  {
    if ns == [] then []
    else if Matches(ns[0], tag, cls) then [ns[0]] + Filter(ns[1..], tag, cls)
    else Filter(ns[1..], tag, cls)
  }

  /** Selection keeps every matching node as often as it occurs, and drops
      every other node. */
  lemma {:induction false} FilterCounts(ns: seq<Node>, tag: string, cls: string, x: Node)
    ensures multiset(Filter(ns, tag, cls))[x] == if Matches(x, tag, cls) then multiset(ns)[x] else 0
  {
    if ns != [] {
      assert ns == [ns[0]] + ns[1..];
      FilterCounts(ns[1..], tag, cls, x);
    }
  }

  /** `element.find_all(tag, class_=cls)`: the matching descendants, and
      only those. */
  function FindAll(n: Node, tag: string, cls: string): (r: seq<Node>)
    ensures forall i :: 0 <= i < |r| ==> Matches(r[i], tag, cls)
    ensures forall x :: x in r <==> x in Descendants(n) && Matches(x, tag, cls)
    ensures n.TextNode? ==> r == []
  {
    Filter(Descendants(n), tag, cls)
  }

  /** `find_all` lists each matching descendant exactly as often as it
      occurs among the descendants, and nothing else. */
  lemma FindAllCounts(n: Node, tag: string, cls: string, x: Node)
    ensures multiset(FindAll(n, tag, cls))[x] == if Matches(x, tag, cls) then multiset(Descendants(n))[x] else 0
  {
    FilterCounts(Descendants(n), tag, cls, x);
  }

  /** The first match in a forest, searching each node before its
      descendants and those before its later siblings. */
  function FirstMatch(ns: seq<Node>, tag: string, cls: string): (r: Option)
    ensures r.Some? ==> Matches(r.node, tag, cls)
    decreases ns
  {
    if ns == [] then None
    else if Matches(ns[0], tag, cls) then Some(ns[0])
    else
      var inside := if ns[0].Element? then FirstMatch(ns[0].children, tag, cls) else None;
      if inside.Some? then inside else FirstMatch(ns[1..], tag, cls)
  }

  datatype Option = None | Some(node: Node)

  /** `element.find(tag, class_=cls)`: the first matching descendant, or None. */
  function Find(n: Node, tag: string, cls: string): (r: Option)
    ensures r.Some? ==> Matches(r.node, tag, cls)
  {
    if n.Element? then FirstMatch(n.children, tag, cls) else None
  }

  /** `find` agrees with `find_all`: it yields the first element `find_all`
      lists, and None exactly when that list is empty. */
  lemma FindIsFirstOfFindAll(n: Node, tag: string, cls: string)
    ensures Find(n, tag, cls).None? <==> FindAll(n, tag, cls) == []
    ensures Find(n, tag, cls).Some? ==> Find(n, tag, cls).node == FindAll(n, tag, cls)[0]
  {
    if n.Element? {
      FirstMatchIsFirst(n.children, tag, cls);
    }
  }

  lemma {:induction false} FirstMatchIsFirst(ns: seq<Node>, tag: string, cls: string)
    ensures FirstMatch(ns, tag, cls).None? <==> Filter(Flatten(ns), tag, cls) == []
    ensures FirstMatch(ns, tag, cls).Some? ==>
      FirstMatch(ns, tag, cls).node == Filter(Flatten(ns), tag, cls)[0]
    decreases ns
  {
    if ns != [] {
      var head := ns[0];
      var inner := Descendants(head);
      FilterConcat([head], inner + Flatten(ns[1..]), tag, cls);
      FilterConcat(inner, Flatten(ns[1..]), tag, cls);
      assert [head] + inner + Flatten(ns[1..]) == [head] + (inner + Flatten(ns[1..]));
      if head.Element? {
        FirstMatchIsFirst(head.children, tag, cls);
      }
      FirstMatchIsFirst(ns[1..], tag, cls);
    }
  }

  lemma {:induction false} FilterConcat(a: seq<Node>, b: seq<Node>, tag: string, cls: string)
    ensures Filter(a + b, tag, cls) == Filter(a, tag, cls) + Filter(b, tag, cls)
    decreases |a|
  {
    if a == [] {
      assert a + b == b;
    } else {
      assert (a + b)[1..] == a[1..] + b;
      FilterConcat(a[1..], b, tag, cls);
    }
  }

  /** `element.text`: every piece of text under the node, concatenated in
      document order; for an element that is the texts of its text-node
      descendants, in the order `Descendants` lists them. */
  function TextOf(n: Node): (r: string)
    ensures n.Element? ==> r == TextsOf(Descendants(n))
    decreases n
  {
    match n
    case TextNode(t) => t
    case Element(_, _, children) => TextOfAll(children)
  }

  function TextOfAll(ns: seq<Node>): (r: string)
    ensures r == TextsOf(Flatten(ns))
    decreases ns
  {
    if ns == [] then ""
    else
      var head := ns[0];
      TextsOfConcat([head] + Descendants(head), Flatten(ns[1..]));
      TextsOfConcat([head], Descendants(head));
      assert TextsOf([head]) == (if head.TextNode? then head.text else "") by {
        assert [head][1..] == [];
      }
      TextOf(head) + TextOfAll(ns[1..])
  }

  /** The texts of the text nodes of a sequence, concatenated; elements
      contribute nothing of their own. */
  function TextsOf(ns: seq<Node>): string {
    if ns == [] then ""
    else (if ns[0].TextNode? then ns[0].text else "") + TextsOf(ns[1..])
  }

  lemma {:induction false} TextsOfConcat(a: seq<Node>, b: seq<Node>)
    ensures TextsOf(a + b) == TextsOf(a) + TextsOf(b)
    decreases |a|
  {
    if a == [] {
      assert a + b == b;
    } else {
      assert (a + b)[1..] == a[1..] + b;
      TextsOfConcat(a[1..], b);
    }
  }
}
