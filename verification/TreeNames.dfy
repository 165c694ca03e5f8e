/** The parts of a document that count, found by the names of its elements: its texts, its `body` and its paragraphs. */
module TreeNames {
  import opened Markup
  import opened Locator
  import opened LocatorTrees
  import opened LocatorResults
  import opened TextRanges
  import opened TextPairing
  import opened Queries
  import opened Target
  import opened EligibleTexts

  /** The names the byte scan looks for. */
  lemma {:induction false} ScannedNames()
    ensures BODY == Utf8("body") && PARA == Utf8("p") && TBL == Utf8("tbl") && SDT == Utf8("sdt") && T_LOCAL == Utf8("t")
  {
    Utf8One('p');
    Utf8One('t');
    Four('b', 'o', 'd', 'y');
    Three('t', 'b', 'l');
    Three('s', 'd', 't');
  }

  lemma {:induction false} Three(a: char, b: char, c: char)
    requires Lower(a) && Lower(b) && Lower(c)
    ensures Utf8([a, b, c]) == [a as int, b as int, c as int]
  {
    Utf8Concat([a], [b, c]);
    Utf8Concat([b], [c]);
    Utf8One(a);
    Utf8One(b);
    Utf8One(c);
    assert [a] + [b, c] == [a, b, c] && [b] + [c] == [b, c];
  }

  lemma {:induction false} Four(a: char, b: char, c: char, d: char)
    requires Lower(a) && Lower(b) && Lower(c) && Lower(d)
    ensures Utf8([a, b, c, d]) == [a as int, b as int, c as int, d as int]
  {
    Utf8Concat([a], [b, c, d]);
    Three(b, c, d);
    Utf8One(a);
    assert [a] + [b, c, d] == [a, b, c, d];
  }

  // ----- elements with what they hold -----

  datatype Node = Node(head: TagHead, content: Forest)

  /** All elements in document order. */
  function Elements(f: Forest): seq<Node> {
    match f
    case Done => []
    case LeafNode(_, rest) => Elements(rest)
    case Empty(h, rest) => [Node(h, Done)] + Elements(rest)
    case Elem(h, kids, _, rest) => [Node(h, kids)] + Elements(kids) + Elements(rest)
  }

  /** Only the items themselves. */
  function TopElements(f: Forest): seq<Node> {
    match f
    case Done => []
    case LeafNode(_, rest) => TopElements(rest)
    case Empty(h, rest) => [Node(h, Done)] + TopElements(rest)
    case Elem(h, kids, _, rest) => [Node(h, kids)] + TopElements(rest)
  }

  /** The contents of those with a name from the WordprocessingML namespace. */
  function ContentsOf(nodes: seq<Node>, name: string): seq<Forest> {
    if nodes == [] then []
    else (if Called(nodes[0].head, name) then [nodes[0].content] else []) + ContentsOf(nodes[1..], name)
  }

  lemma {:induction false} ContentsConcat(a: seq<Node>, b: seq<Node>, name: string)
    ensures ContentsOf(a + b, name) == ContentsOf(a, name) + ContentsOf(b, name)
    decreases |a|
  {
    hide Utf8;
    if a == [] {
      assert a + b == b;
    } else {
      assert (a + b)[1..] == a[1..] + b;
      ContentsConcat(a[1..], b, name);
    }
  }

  lemma {:induction false} ContentOne(n: Node, name: string)
    ensures ContentsOf([n], name) == if Called(n.head, name) then [n.content] else []
  {
    hide Utf8;
    assert [n][1..] == [] && ContentsOf([], name) == [];
  }

  lemma {:induction false} TextByName(h: TagHead)
    ensures IsText(h) <==> Called(h, "t")
  {
    hide Utf8;
    ScannedNames();
  }

  /** The texts of a document are those of its `t` elements. */
  lemma {:induction false} TextsByName(f: Forest)
    ensures OwnKids(f) == ContentsOf(Elements(f), "t")
  {
    hide Utf8, IsText;
    match f
    case Done =>
    case LeafNode(_, rest) => TextsByName(rest);
    case Empty(h, rest) =>
      TextByName(h);
      TextsByName(rest);
      ContentsConcat([Node(h, Done)], Elements(rest), "t");
      ContentOne(Node(h, Done), "t");
    case Elem(h, kids, _, rest) =>
      TextByName(h);
      TextsByName(kids);
      TextsByName(rest);
      ContentsConcat([Node(h, kids)] + Elements(kids), Elements(rest), "t");
      ContentsConcat([Node(h, kids)], Elements(kids), "t");
      ContentOne(Node(h, kids), "t");
  }

  function KidsOf(paras: seq<Para>): seq<Forest> {
    seq(|paras|, i requires 0 <= i < |paras| => paras[i].kids)
  }

  lemma {:induction false} KidsConcat(a: seq<Para>, b: seq<Para>)
    ensures KidsOf(a + b) == KidsOf(a) + KidsOf(b)
  {}

  lemma {:induction false} KidsOne(p: Para)
    ensures KidsOf([p]) == [p.kids] && KidsOf([]) == []
  {}

  lemma {:induction false} ParasByName(f: Forest, off: nat, idx: nat)
    ensures KidsOf(Paras(f, off, idx)) == ContentsOf(TopElements(f), "p")
    decreases f
  {
    hide Utf8, IsText, KidsOf, OwnKids;
    ScannedNames();
    match f
    case Done => KidsOne(Para(Span(0, 0, 0, true), Done, 0, 0));
    case LeafNode(l, rest) => ParasByName(rest, LeafEnd(l, off), idx);
    case Empty(h, rest) =>
      var end, more := EmptyEnd(h, off), if IsText(h) then idx + 1 else idx;
      var p := Para(Span(off, end, end, true), Done, end, idx);
      ParasByName(rest, end, more);
      KidsOne(p);
      KidsConcat(if Called(h, "p") then [p] else [], Paras(rest, end, more));
      ContentsConcat([Node(h, Done)], TopElements(rest), "p");
      ContentOne(Node(h, Done), "p");
    case Elem(h, kids, tail, rest) =>
      var inner, end, before := InnerAt(h, off), EndAt(h, kids, tail, off), if IsText(h) then idx + 1 else idx;
      var p := Para(Span(off, inner, end, false), kids, inner, before);
      ParasByName(rest, end, before + TextCount(kids));
      KidsOne(p);
      KidsConcat(if Called(h, "p") then [p] else [], Paras(rest, end, before + TextCount(kids)));
      ContentsConcat([Node(h, kids)], TopElements(rest), "p");
      ContentOne(Node(h, kids), "p");
  }

  /** The first `body` in document order, and the paragraphs right in it; without one there are none. */
  lemma {:induction false} ParagraphsByName(root: Forest)
    ensures var bodies := ContentsOf(Elements(root), "body");
            KidsOf(Paragraphs(root)) == if bodies == [] then [] else ContentsOf(TopElements(bodies[0]), "p")
  {
    hide Utf8, Paras;
    BodyByName(root, 0, 0);
    var b := BoundBody(root, 0, 0);
    if b.Some? {
      ParasByName(b.value.0, b.value.1, b.value.2);
    }
  }

  lemma {:induction false} BodyByName(f: Forest, off: nat, idx: nat)
    ensures var bodies := ContentsOf(Elements(f), "body");
            var b := BoundBody(f, off, idx);
            (b.None? <==> bodies == []) && (b.Some? ==> b.value.0 == bodies[0])
    decreases f
  {
    hide Utf8, IsText, OwnKids, ContentsOf, Called, InnerAt, EndAt, EmptyEnd, LeafEnd;
    match f
    case Done => NoContents();
    case LeafNode(l, rest) => BodyByName(rest, LeafEnd(l, off), idx);
    case Empty(h, rest) =>
      BodyHead(h);
      BodyByName(rest, EmptyEnd(h, off), if IsText(h) then idx + 1 else idx);
      ContentsConcat([Node(h, Done)], Elements(rest), "body");
      ContentOne(Node(h, Done), "body");
    case Elem(h, kids, tail, rest) =>
      var before := if IsText(h) then idx + 1 else idx;
      BodyHead(h);
      BodyByName(kids, InnerAt(h, off), before);
      BodyByName(rest, EndAt(h, kids, tail, off), before + TextCount(kids));
      ContentsConcat([Node(h, kids)] + Elements(kids), Elements(rest), "body");
      ContentsConcat([Node(h, kids)], Elements(kids), "body");
      ContentOne(Node(h, kids), "body");
  }

  lemma {:induction false} NoContents()
    ensures ContentsOf([], "body") == []
  {}

  lemma {:induction false} BodyHead(h: TagHead)
    ensures Called(h, "body") <==> h.name.w && h.name.local == BODY
  {
    hide Utf8;
    ScannedNames();
  }
}
