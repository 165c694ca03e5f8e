/** `_track_visible_text`: the text shown once tracked deletions are taken out, paragraph by paragraph. */
module VisibleText {
  import opened Sequences
  import opened Markup
  import opened Locator
  import opened LocatorTables
  import opened TextRanges
  import opened Queries
  import opened Target
  import opened PredictedEdit

  const DEL_LOCAL: seq<byte> := Utf8("del")
  const MOVE_FROM_LOCAL: seq<byte> := Utf8("moveFrom")

  /** The text of an element, from its content. */
  type TextOf = Forest -> string

  /** Content of this element counts as deleted, whatever its namespace. */
  predicate Strikes(h: TagHead) {
    h.name.local == DEL_LOCAL || h.name.local == MOVE_FROM_LOCAL
  }

  /** `t` in any namespace. */
  predicate ShowsText(h: TagHead) {
    h.name.local == T_LOCAL
  }

  predicate IsParagraph(h: TagHead) {
    h.name.w && h.name.local == PARA
  }

  // ----- the walk -----

  /** What one walk over these items and everything below them appends. */
  function Shown(text: TextOf, f: Forest, deleted: bool): string {
    match f
    case Done => []
    case LeafNode(_, rest) => Shown(text, rest, deleted)
    case Empty(h, rest) =>
      (if ShowsText(h) && !deleted then text(Done) else []) + Shown(text, rest, deleted)
    case Elem(h, kids, _, rest) =>
      (if ShowsText(h) && !deleted then text(kids) else [])
      + Shown(text, kids, deleted || Strikes(h)) + Shown(text, rest, deleted)
  }

  /** One walk from every paragraph in document order, nested ones included, each starting as not deleted. */
  function ByParagraph(text: TextOf, f: Forest): string {
    match f
    case Done => []
    case LeafNode(_, rest) => ByParagraph(text, rest)
    case Empty(_, rest) => ByParagraph(text, rest)
    case Elem(h, kids, _, rest) =>
      (if IsParagraph(h) then Shown(text, kids, false) else []) + ByParagraph(text, kids) + ByParagraph(text, rest)
  }

  function VisibleOf(parse: seq<byte> -> Option<Forest>, text: TextOf, untagged: seq<byte> -> string,
                     member: Option<seq<byte>>): string {
    if member.None? then []
    else if parse(member.value).None? then untagged(member.value)
    else ByParagraph(text, parse(member.value).value)
  }

  lemma {:induction false} JoinOne(parts: seq<string>, s: string)
    ensures Join(parts + [s]) == Join(parts) + s
    decreases |parts|
  {
    if parts == [] {
      assert [s][1..] == [];
      assert parts + [s] == [s];
    } else {
      assert (parts + [s])[1..] == parts[1..] + [s];
      JoinOne(parts[1..], s);
    }
  }

  lemma {:induction false} Appended(was: string, a: string, b: string, c: string)
    ensures was + a + b + c == was + (a + b + c) && was + [] == was
  {}

  /** The list the walks append to. */
  class Collector {
    var parts: seq<string>

    constructor ()
      ensures parts == []
    {
      parts := [];
    }

    /** `walk`, over the children of a node. */
    method Walk(text: TextOf, f: Forest, deleted: bool)
      modifies this
      ensures Join(parts) == old(Join(parts)) + Shown(text, f, deleted)
      decreases f
    {
      hide Join, ShowsText, Strikes, DEL_LOCAL, MOVE_FROM_LOCAL;
      ghost var was := Join(parts);
      match f {
        case Done =>
        case LeafNode(_, rest) =>
          Walk(text, rest, deleted);
        case Empty(h, rest) =>
          if ShowsText(h) && !deleted {
            JoinOne(parts, text(Done));
            parts := parts + [text(Done)];
          }
          Walk(text, rest, deleted);
        case Elem(h, kids, _, rest) =>
          if ShowsText(h) && !deleted {
            JoinOne(parts, text(kids));
            parts := parts + [text(kids)];
          }
          Walk(text, kids, deleted || Strikes(h));
          Walk(text, rest, deleted);
          Appended(was, if ShowsText(h) && !deleted then text(kids) else [], Shown(text, kids, deleted || Strikes(h)),
                   Shown(text, rest, deleted));
      }
    }

    /** The loop over `root.iter` of the paragraphs. */
    method WalkParagraphs(text: TextOf, f: Forest)
      modifies this
      ensures Join(parts) == old(Join(parts)) + ByParagraph(text, f)
      decreases f
    {
      hide Join, IsParagraph, Shown;
      ghost var was := Join(parts);
      match f {
        case Done =>
        case LeafNode(_, rest) =>
          WalkParagraphs(text, rest);
        case Empty(_, rest) =>
          WalkParagraphs(text, rest);
        case Elem(h, kids, _, rest) =>
          if IsParagraph(h) {
            Walk(text, kids, false);
          }
          WalkParagraphs(text, kids);
          WalkParagraphs(text, rest);
          Appended(was, if IsParagraph(h) then Shown(text, kids, false) else [], ByParagraph(text, kids),
                   ByParagraph(text, rest));
      }
    }
  }

  /** `_track_visible_text`; `untagged` is what is left of an unparseable member once its tags are cut out. */
  method TrackVisibleText(parse: seq<byte> -> Option<Forest>, text: TextOf, untagged: seq<byte> -> string,
                          member: Option<seq<byte>>) returns (shown: string)
    ensures shown == VisibleOf(parse, text, untagged, member)
  {
    if member.None? {
      return [];
    }
    var root := parse(member.value);
    if root.None? {
      return untagged(member.value);
    }
    var c := new Collector();
    c.WalkParagraphs(text, root.value);
    shown := Join(c.parts);
  }

  // ----- what it should be -----

  /** The final view: every `t` below a paragraph and below no deletion, each once, in document order. */
  function FinalView(text: TextOf, f: Forest, inside: bool, deleted: bool): string {
    match f
    case Done => []
    case LeafNode(_, rest) => FinalView(text, rest, inside, deleted)
    case Empty(h, rest) =>
      (if ShowsText(h) && inside && !deleted then text(Done) else []) + FinalView(text, rest, inside, deleted)
    case Elem(h, kids, _, rest) =>
      (if ShowsText(h) && inside && !deleted then text(kids) else [])
      + FinalView(text, kids, inside || IsParagraph(h), deleted || Strikes(h)) + FinalView(text, rest, inside, deleted)
  }

  /** No `t` that holds text stands below without a deletion around it. */
  predicate Blank(text: TextOf, f: Forest, deleted: bool) {
    match f
    case Done => true
    case LeafNode(_, rest) => Blank(text, rest, deleted)
    case Empty(h, rest) => (ShowsText(h) && !deleted ==> text(Done) == "") && Blank(text, rest, deleted)
    case Elem(h, kids, _, rest) =>
      (ShowsText(h) && !deleted ==> text(kids) == "") && Blank(text, kids, deleted || Strikes(h)) && Blank(text, rest, deleted)
  }

  /** The caller's test: a paragraph inside another one or inside a deletion holds no undeleted text of its own. */
  predicate Quiet(text: TextOf, f: Forest, inside: bool, deleted: bool) {
    match f
    case Done => true
    case LeafNode(_, rest) => Quiet(text, rest, inside, deleted)
    case Empty(_, rest) => Quiet(text, rest, inside, deleted)
    case Elem(h, kids, _, rest) =>
      && (IsParagraph(h) && (inside || deleted) ==> Blank(text, kids, false))
      && Quiet(text, kids, inside || IsParagraph(h), deleted || Strikes(h)) && Quiet(text, rest, inside, deleted)
  }

  /** A walk appends nothing exactly where there is nothing to show. */
  lemma {:induction false} BlankShowsNothing(text: TextOf, f: Forest, deleted: bool)
    ensures Shown(text, f, deleted) == [] <==> Blank(text, f, deleted)
  {
    match f {
      case Done =>
      case LeafNode(_, rest) => BlankShowsNothing(text, rest, deleted);
      case Empty(_, rest) => BlankShowsNothing(text, rest, deleted);
      case Elem(h, kids, _, rest) =>
        BlankShowsNothing(text, kids, deleted || Strikes(h));
        BlankShowsNothing(text, rest, deleted);
        NothingInThree(if ShowsText(h) && !deleted then text(kids) else [], Shown(text, kids, deleted || Strikes(h)),
                       Shown(text, rest, deleted));
    }
  }

  /** Below a paragraph the final view is one walk. */
  lemma {:induction false} InsideIsWalk(text: TextOf, f: Forest, deleted: bool)
    ensures FinalView(text, f, true, deleted) == Shown(text, f, deleted)
  {
    match f {
      case Done =>
      case LeafNode(_, rest) => InsideIsWalk(text, rest, deleted);
      case Empty(_, rest) => InsideIsWalk(text, rest, deleted);
      case Elem(h, kids, _, rest) =>
        InsideIsWalk(text, kids, deleted || Strikes(h));
        InsideIsWalk(text, rest, deleted);
    }
  }

  lemma {:induction false} DeletedShowsNothing(text: TextOf, f: Forest, inside: bool)
    ensures Shown(text, f, true) == [] && FinalView(text, f, inside, true) == []
  {
    match f {
      case Done =>
      case LeafNode(_, rest) => DeletedShowsNothing(text, rest, inside);
      case Empty(_, rest) => DeletedShowsNothing(text, rest, inside);
      case Elem(h, kids, _, rest) =>
        DeletedShowsNothing(text, kids, inside || IsParagraph(h));
        DeletedShowsNothing(text, rest, inside);
    }
  }

  /** Where every paragraph is nested or deleted, being quiet is appending nothing at all. */
  lemma {:induction false} QuietIsSilent(text: TextOf, f: Forest, inside: bool, deleted: bool)
    requires inside || deleted
    ensures ByParagraph(text, f) == [] <==> Quiet(text, f, inside, deleted)
  {
    match f {
      case Done =>
      case LeafNode(_, rest) => QuietIsSilent(text, rest, inside, deleted);
      case Empty(_, rest) => QuietIsSilent(text, rest, inside, deleted);
      case Elem(h, kids, _, rest) =>
        QuietIsSilent(text, kids, inside || IsParagraph(h), deleted || Strikes(h));
        QuietIsSilent(text, rest, inside, deleted);
        BlankShowsNothing(text, kids, false);
        NothingInThree(if IsParagraph(h) then Shown(text, kids, false) else [], ByParagraph(text, kids),
                       ByParagraph(text, rest));
    }
  }

  lemma {:induction false} NothingInThree(a: string, b: string, c: string)
    ensures a + b + c == [] <==> a == [] && b == [] && c == []
  {
    assert |a + b + c| == |a| + |b| + |c|;
  }

  lemma {:induction false} EqualParts(a: string, b: string, c: string, d: string)
    requires |a| >= |c| && |b| >= |d|
    ensures a + b == c + d <==> a == c && b == d
  {
    if a + b == c + d {
      assert |a + b| == |a| + |b| && |c + d| == |c| + |d|;
      assert a == (a + b)[..|a|] && c == (c + d)[..|a|];
      assert b == (a + b)[|a|..] && d == (c + d)[|a|..];
    }
  }

  /** Walking paragraph by paragraph never shows less than the final view. */
  lemma {:induction false} NeverLess(text: TextOf, f: Forest, deleted: bool)
    ensures |ByParagraph(text, f)| >= |FinalView(text, f, false, deleted)|
  {
    if deleted {
      DeletedShowsNothing(text, f, false);
      return;
    }
    match f {
      case Done =>
      case LeafNode(_, rest) => NeverLess(text, rest, deleted);
      case Empty(_, rest) => NeverLess(text, rest, deleted);
      case Elem(h, kids, _, rest) =>
        NeverLess(text, rest, deleted);
        NeverLess(text, kids, Strikes(h));
        InsideIsWalk(text, kids, false);
    }
  }

  /**
   For every tree: the text collected paragraph by paragraph is the final view, each undeleted text once and in order,
   if and only if no paragraph that stands in another or in a deletion has text of its own to show.
   */
  lemma {:induction false} VisibleIsFinalView(text: TextOf, f: Forest, deleted: bool)
    ensures ByParagraph(text, f) == FinalView(text, f, false, deleted) <==> Quiet(text, f, false, deleted)
    decreases f, 0
  {
    hide Strikes, IsParagraph, ShowsText, Shown;
    if deleted {
      DeletedShowsNothing(text, f, false);
      QuietIsSilent(text, f, false, true);
      return;
    }
    match f {
      case Done =>
      case LeafNode(_, rest) => VisibleIsFinalView(text, rest, false);
      case Empty(_, rest) => VisibleIsFinalView(text, rest, false);
      case Elem(h, kids, _, rest) =>
        VisibleIsFinalView(text, rest, false);
        NeverLess(text, rest, false);
        VisibleHead(text, h, kids);
        var here := (if IsParagraph(h) then Shown(text, kids, false) else []) + ByParagraph(text, kids);
        var final := FinalView(text, kids, IsParagraph(h), Strikes(h));
        assert FinalView(text, f, false, false) == [] + final + FinalView(text, rest, false, false);
        assert [] + final == final;
        EqualParts(here, ByParagraph(text, rest), final, FinalView(text, rest, false, false));
    }
  }

  /** One element on its own. */
  lemma {:induction false} VisibleHead(text: TextOf, h: TagHead, kids: Forest)
    ensures var here := (if IsParagraph(h) then Shown(text, kids, false) else []) + ByParagraph(text, kids);
            var final := FinalView(text, kids, IsParagraph(h), Strikes(h));
            |here| >= |final| && (here == final <==> Quiet(text, kids, IsParagraph(h), Strikes(h)))
    decreases kids, 1
  {
    if IsParagraph(h) {
      InsideIsWalk(text, kids, false);
      QuietIsSilent(text, kids, true, false);
    } else {
      NeverLess(text, kids, Strikes(h));
      VisibleIsFinalView(text, kids, Strikes(h));
    }
  }

  // ----- the walk, told by names -----

  /** A `t` element: its content, and the local names of the elements around it, from the walk's start inwards. */
  datatype Piece = Piece(content: Forest, above: seq<seq<byte>>)

  function Pieces(f: Forest, above: seq<seq<byte>>): seq<Piece> {
    match f
    case Done => []
    case LeafNode(_, rest) => Pieces(rest, above)
    case Empty(h, rest) => (if h.name.local == Utf8("t") then [Piece(Done, above)] else []) + Pieces(rest, above)
    case Elem(h, kids, _, rest) =>
      (if h.name.local == Utf8("t") then [Piece(kids, above)] else [])
      + Pieces(kids, above + [h.name.local]) + Pieces(rest, above)
  }

  predicate Struck(above: seq<seq<byte>>) {
    Utf8("del") in above || Utf8("moveFrom") in above
  }

  /** The texts of the pieces that no `del` and no `moveFrom` stands around. */
  function Unstruck(text: TextOf, pieces: seq<Piece>): string {
    if pieces == [] then []
    else (if Struck(pieces[0].above) then [] else text(pieces[0].content)) + Unstruck(text, pieces[1..])
  }

  lemma {:induction false} UnstruckConcat(text: TextOf, a: seq<Piece>, b: seq<Piece>)
    ensures Unstruck(text, a + b) == Unstruck(text, a) + Unstruck(text, b)
    decreases |a|
  {
    hide Struck;
    if a == [] {
      assert a + b == b;
    } else {
      assert (a + b)[1..] == a[1..] + b;
      UnstruckConcat(text, a[1..], b);
    }
  }

  lemma {:induction false} UnstruckOne(text: TextOf, p: Piece)
    ensures Unstruck(text, [p]) == if Struck(p.above) then [] else text(p.content)
  {
    assert [p][1..] == [] && Unstruck(text, []) == [];
  }

  lemma {:induction false} NameFacts(h: TagHead)
    ensures ShowsText(h) <==> h.name.local == Utf8("t")
    ensures IsParagraph(h) <==> h.name.w && h.name.local == Utf8("p")
    ensures Strikes(h) <==> h.name.local == Utf8("del") || h.name.local == Utf8("moveFrom")
  {
    hide Utf8;
    Utf8One('t');
    Utf8One('p');
  }

  /** A walk appends, in document order, every text below that stands in no deletion and in no move away. */
  lemma {:induction false} WalkByName(text: TextOf, f: Forest, above: seq<seq<byte>>)
    ensures Shown(text, f, Struck(above)) == Unstruck(text, Pieces(f, above))
    decreases f
  {
    hide Utf8, ShowsText, Strikes, Unstruck;
    match f
    case Done => NoPieces(text);
    case LeafNode(_, rest) => WalkByName(text, rest, above);
    case Empty(h, rest) =>
      NameFacts(h);
      WalkByName(text, rest, above);
      OwnPiece(text, h, Done, above);
      UnstruckConcat(text, if h.name.local == Utf8("t") then [Piece(Done, above)] else [], Pieces(rest, above));
    case Elem(h, kids, _, rest) =>
      var own := if h.name.local == Utf8("t") then [Piece(kids, above)] else [];
      var inner := above + [h.name.local];
      NameFacts(h);
      assert Struck(inner) <==> Struck(above) || Strikes(h);
      WalkByName(text, kids, inner);
      WalkByName(text, rest, above);
      OwnPiece(text, h, kids, above);
      UnstruckConcat(text, own + Pieces(kids, inner), Pieces(rest, above));
      UnstruckConcat(text, own, Pieces(kids, inner));
  }

  lemma {:induction false} NoPieces(text: TextOf)
    ensures Unstruck(text, []) == []
  {}

  lemma {:induction false} OwnPiece(text: TextOf, h: TagHead, content: Forest, above: seq<seq<byte>>)
    ensures Unstruck(text, if h.name.local == Utf8("t") then [Piece(content, above)] else []) ==
            if h.name.local == Utf8("t") && !Struck(above) then text(content) else []
  {
    hide Utf8;
    UnstruckOne(text, Piece(content, above));
  }

  /** The contents of all paragraphs, nested ones included, in document order. */
  function ParaContents(f: Forest): seq<Forest> {
    match f
    case Done => []
    case LeafNode(_, rest) => ParaContents(rest)
    case Empty(_, rest) => ParaContents(rest)
    case Elem(h, kids, _, rest) =>
      (if h.name.w && h.name.local == Utf8("p") then [kids] else []) + ParaContents(kids) + ParaContents(rest)
  }

  /** One walk's texts after the other. */
  function AllUnstruck(text: TextOf, contents: seq<Forest>): string {
    if contents == [] then [] else Unstruck(text, Pieces(contents[0], [])) + AllUnstruck(text, contents[1..])
  }

  lemma {:induction false} AllConcat(text: TextOf, a: seq<Forest>, b: seq<Forest>)
    ensures AllUnstruck(text, a + b) == AllUnstruck(text, a) + AllUnstruck(text, b)
    decreases |a|
  {
    hide Unstruck, Pieces;
    if a == [] {
      assert a + b == b;
    } else {
      assert (a + b)[1..] == a[1..] + b;
      AllConcat(text, a[1..], b);
    }
  }

  /** What is collected is what these walks give, one from every paragraph. */
  lemma {:induction false} CollectedByName(text: TextOf, f: Forest)
    ensures ByParagraph(text, f) == AllUnstruck(text, ParaContents(f))
  {
    hide Utf8, IsParagraph, Shown, Unstruck, Pieces;
    match f
    case Done =>
    case LeafNode(_, rest) => CollectedByName(text, rest);
    case Empty(_, rest) => CollectedByName(text, rest);
    case Elem(h, kids, _, rest) =>
      var own := if h.name.w && h.name.local == Utf8("p") then [kids] else [];
      NameFacts(h);
      CollectedByName(text, kids);
      CollectedByName(text, rest);
      AllConcat(text, own + ParaContents(kids), ParaContents(rest));
      AllConcat(text, own, ParaContents(kids));
      assert !Struck([]);
      WalkByName(text, kids, []);
      assert [kids][1..] == [];
  }

  /** A missing member shows nothing, one that does not parse shows what is left of it, any other what is collected. */
  lemma {:induction false} ShownExactly(parse: seq<byte> -> Option<Forest>, text: TextOf, untagged: seq<byte> -> string,
                                        member: Option<seq<byte>>)
    ensures VisibleOf(parse, text, untagged, member) ==
            match member
            case None => ""
            case Some(bytes) =>
              match parse(bytes)
              case None => untagged(bytes)
              case Some(root) => AllUnstruck(text, ParaContents(root))
  {
    hide ByParagraph, AllUnstruck, ParaContents;
    if member.Some? && parse(member.value).Some? {
      CollectedByName(text, parse(member.value).value);
    }
  }

  // ----- concrete failures -----

  function Run(bs: seq<byte>): Forest {
    Node(T_LOCAL, PlainText(bs), Done)
  }

  lemma {:induction false} RunShows(text: TextOf, bs: seq<byte>)
    ensures Shown(text, Run(bs), false) == text(PlainText(bs))
    ensures ByParagraph(text, Run(bs)) == []
    ensures FinalView(text, Run(bs), true, false) == text(PlainText(bs)) && FinalView(text, Run(bs), true, true) == []
  {
    assert PlainText(bs).rest == Done;
    assert Shown(text, PlainText(bs), false) == Shown(text, Done, false) == [];
    InsideIsWalk(text, Run(bs), false);
    DeletedShowsNothing(text, Run(bs), true);
  }

  /** A paragraph in a text box of another: its text is shown twice. */
  lemma {:induction false} NestedParagraphShownTwice(text: TextOf, bs: seq<byte>)
    ensures var f := Node(PARA, Node(PARA, Run(bs), Done), Done);
            var once := text(PlainText(bs));
            ByParagraph(text, f) == once + once && FinalView(text, f, false, false) == once
  {
    hide Run;
    RunShows(text, bs);
    var inner := Node(PARA, Run(bs), Done);
    assert Shown(text, inner, false) == text(PlainText(bs));
    assert ByParagraph(text, inner) == text(PlainText(bs));
    assert FinalView(text, inner, true, false) == text(PlainText(bs));
  }

  /** A paragraph inside a deletion: its deleted text is shown. */
  lemma {:induction false} DeletedParagraphShown(text: TextOf, bs: seq<byte>)
    ensures var f := Node(PARA, Node(DEL_LOCAL, Node(PARA, Run(bs), Done), Done), Done);
            ByParagraph(text, f) == text(PlainText(bs)) && FinalView(text, f, false, false) == []
  {
    hide Run;
    DelIsNoParagraph();
    RunShows(text, bs);
    var inner := Node(PARA, Run(bs), Done);
    var struck := Node(DEL_LOCAL, inner, Done);
    assert ByParagraph(text, inner) == text(PlainText(bs));
    DeletedShowsNothing(text, inner, true);
    assert Shown(text, struck, false) == [];
    assert ByParagraph(text, struck) == text(PlainText(bs));
    assert FinalView(text, struck, true, false) == [];
  }

  lemma {:induction false} DelIsNoParagraph()
    ensures DEL_LOCAL != PARA && DEL_LOCAL != T_LOCAL
  {
    assert DEL_LOCAL == Utf8Char('d') + Utf8("el");
    assert DEL_LOCAL[0] == 100;
  }
}
