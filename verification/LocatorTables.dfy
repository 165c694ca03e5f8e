/** Which table number the locator gives a paragraph, when that is its table, and the check of direct paragraphs. */
module LocatorTables {
  import opened Sequences
  import opened Scanner
  import opened Markup
  import opened Locator
  import opened LocatorTrees
  import opened LocatorResults
  import opened Locating

  function ParaCount(s: Shape): nat {
    match s
    case Nil => 0
    case Solo(name, _, _, rest) => (if name == PARA then 1 else 0) + ParaCount(rest)
    case Box(name, _, _, kids, _, _, rest) => (if name == PARA then 1 else 0) + ParaCount(kids) + ParaCount(rest)
  }

  function Repeat(x: Option<nat>, n: nat): seq<Option<nat>> {
    seq(n, i => x)
  }

  /** The right answer: the ordinal of the table child of `body` that the paragraph lies in, if it lies in one. */
  function TrueTables(s: Shape, next: nat): seq<Option<nat>> {
    match s
    case Nil => []
    case Solo(name, _, _, rest) => (if name == PARA then [None] else []) + TrueTables(rest, next)
    case Box(name, _, _, kids, _, _, rest) =>
      if name == TBL then Repeat(Some(next), ParaCount(kids)) + TrueTables(rest, next + 1)
      else
        (if name == PARA then [None] else []) + Repeat(None, ParaCount(kids)) + TrueTables(rest, next)
  }

  predicate HasTable(s: Shape) {
    match s
    case Nil => false
    case Solo(_, _, _, rest) => HasTable(rest)
    case Box(name, _, _, kids, _, _, rest) => name == TBL || HasTable(kids) || HasTable(rest)
  }

  /** Some paragraph starts after a table in here has closed. */
  predicate ParaAfterTable(s: Shape) {
    match s
    case Nil => false
    case Solo(_, _, _, rest) => ParaAfterTable(rest)
    case Box(name, _, _, kids, _, _, rest) =>
      ParaAfterTable(kids) || ((name == TBL || HasTable(kids)) && ParaCount(rest) > 0) || ParaAfterTable(rest)
  }

  /** The caller's test: in no table child of `body` does a paragraph follow a nested table. */
  predicate TablesCanBeRight(s: Shape) {
    match s
    case Nil => true
    case Solo(_, _, _, rest) => TablesCanBeRight(rest)
    case Box(name, _, _, kids, _, _, rest) => (name == TBL ==> !ParaAfterTable(kids)) && TablesCanBeRight(rest)
  }

  function TablesOf(es: seq<Entry>): seq<Option<nat>> {
    seq(|es|, i requires 0 <= i < |es| => es[i].table)
  }

  lemma {:induction false} TablesConcat(a: seq<Entry>, b: seq<Entry>)
    ensures TablesOf(a + b) == TablesOf(a) + TablesOf(b)
  {}

  lemma {:induction false} RepeatConcat(x: Option<nat>, m: nat, n: nat)
    ensures Repeat(x, m) + Repeat(x, n) == Repeat(x, m + n)
  {}

  /** Entering an element adds its own paragraph, if it is one, and nothing else. */
  lemma {:induction false} EnterTables(name: seq<byte>, start: nat, inner: nat, env: Env, w: Work) returns (own: seq<Entry>)
    requires !env.direct
    ensures var w0 := Enter(name, start, inner, env, w);
            && w0.located == w.located + own && w0.tables == w.tables && w0.openTables == w.openTables
            && |own| == (if name == PARA then 1 else 0)
            && (w.openTables == [] ==> TablesOf(own) == Repeat(None, |own|))
            && (env.inTable && |w.openTables| == 1 ==> TablesOf(own) == Repeat(Some(w.openTables[0]), |own|))
  {
    own := if name == PARA then [Added(w, env, start, inner, false)] else [];
  }

  lemma {:induction false} SoloTables(name: seq<byte>, start: nat, end: nat, env: Env, w: Work) returns (own: seq<Entry>)
    requires !env.direct
    ensures var w0 := if name == PARA then AddParagraph(w, env, start, end, true) else w;
            && w0.located == w.located + own && w0.tables == w.tables && w0.openTables == w.openTables
            && |own| == (if name == PARA then 1 else 0)
            && (w.openTables == [] ==> TablesOf(own) == Repeat(None, |own|))
            && (env.inTable && |w.openTables| == 1 ==> TablesOf(own) == Repeat(Some(w.openTables[0]), |own|))
  {
    own := if name == PARA then [Added(w, env, start, end, true)] else [];
  }

  /** With no open table on record no paragraph gets a table number. */
  lemma {:induction false} WalkNoTable(s: Shape, env: Env, w: Work) returns (es: seq<Entry>)
    requires !env.direct && w.openTables == []
    ensures var r := Walk(s, env, w);
            && r.located == w.located + es && r.tables == w.tables && r.openTables == []
            && TablesOf(es) == Repeat(None, ParaCount(s))
    decreases s
  {
    hide AddParagraph, Enter, TablesOf, Repeat;
    match s
    case Nil =>
      es := [];
      NoEntries();
    case Solo(name, start, end, rest) =>
      var own := SoloTables(name, start, end, env, w);
      var rs := WalkNoTable(rest, env, if name == PARA then AddParagraph(w, env, start, end, true) else w);
      TablesConcat(own, rs);
      RepeatConcat(None, |own|, ParaCount(rest));
      es := own + rs;
    case Box(name, start, inner, kids, _, _, rest) =>
      var own := EnterTables(name, start, inner, env, w);
      var w0, below := Enter(name, start, inner, env, w), Below(name, env, w);
      var ks := WalkNoTable(kids, below, w0);
      var rs := WalkNoTable(rest, env, Leave(name, Walk(kids, below, w0)));
      TablesConcat(own, ks);
      TablesConcat(own + ks, rs);
      RepeatConcat(None, |own|, ParaCount(kids));
      RepeatConcat(None, |own| + ParaCount(kids), ParaCount(rest));
      es := own + ks + rs;
  }

  lemma {:induction false} NoEntries()
    ensures TablesOf([]) == [] && Repeat(None, 0) == []
  {}

  /** Inside table `t`: every paragraph gets `t` unless one starts after a nested table has closed. */
  lemma {:induction false} WalkTable(s: Shape, env: Env, w: Work, t: nat) returns (es: seq<Entry>)
    requires !env.direct && env.inTable && w.openTables == [t]
    ensures var r := Walk(s, env, w);
            && r.located == w.located + es && r.tables == w.tables
            && r.openTables == (if HasTable(s) then [] else [t])
            && |es| == ParaCount(s)
            && (TablesOf(es) == Repeat(Some(t), ParaCount(s)) <==> !ParaAfterTable(s))
    decreases s, 1
  {
    hide AddParagraph, Enter, TablesOf, Repeat, ParaAfterTable;
    NoTables(t);
    match s
    case Nil => es := [];
    case Solo(name, start, end, rest) =>
      var own := SoloTables(name, start, end, env, w);
      var rs := WalkTable(rest, env, if name == PARA then AddParagraph(w, env, start, end, true) else w, t);
      AfterTableSolo(s);
      AllThese(own, [], rs, Some(t));
      assert own + [] + rs == own + rs;
      es := own + rs;
    case Box(_, _, _, _, _, _, _) => es := WalkTableBox(s, env, w, t);
  }

  lemma {:induction false} Regroup3<T>(a: seq<T>, b: seq<T>, c: seq<T>, d: seq<T>)
    ensures a + b + c + d == a + (b + c + d)
  {}

  lemma {:induction false} WalkBox(s: Shape, env: Env, w: Work)
    requires s.Box?
    ensures Walk(s, env, w)
         == Walk(s.rest, env, Leave(s.name, Walk(s.kids, Below(s.name, env, w), Enter(s.name, s.start, s.inner, env, w))))
  {
    hide AddParagraph, Enter, Leave;
  }

  lemma {:induction false} LeaveTables(name: seq<byte>, w: Work, t: nat)
    requires w.openTables == [] || w.openTables == [t]
    ensures var w1 := Leave(name, w);
            && w1.located == w.located && w1.tables == w.tables
            && w1.openTables == if name == TBL then [] else w.openTables
  {}

  lemma {:induction false} WalkTableBox(s: Shape, env: Env, w: Work, t: nat) returns (es: seq<Entry>)
    requires s.Box? && !env.direct && env.inTable && w.openTables == [t]
    ensures var r := Walk(s, env, w);
            && r.located == w.located + es && r.tables == w.tables
            && r.openTables == (if HasTable(s) then [] else [t])
            && |es| == ParaCount(s)
            && (TablesOf(es) == Repeat(Some(t), ParaCount(s)) <==> !ParaAfterTable(s))
    decreases s, 0
  {
    hide Walk, AddParagraph, Enter, Leave, ParaCount, HasTable, TablesOf, Repeat, ParaAfterTable;
    WalkBox(s, env, w);
    var own := EnterTables(s.name, s.start, s.inner, env, w);
    var w0, below := Enter(s.name, s.start, s.inner, env, w), Below(s.name, env, w);
    var ks := WalkTable(s.kids, below, w0, t);
    var w1 := Leave(s.name, Walk(s.kids, below, w0));
    LeaveTables(s.name, Walk(s.kids, below, w0), t);
    var rs;
    if s.name == TBL || HasTable(s.kids) {
      rs := WalkNoTable(s.rest, env, w1);
      Mixed(rs, t, ParaCount(s.rest));
    } else {
      rs := WalkTable(s.rest, env, w1, t);
    }
    AfterTableBox(s);
    AllThese(own, ks, rs, Some(t));
    es := own + ks + rs;
    Regroup3(w.located, own, ks, rs);
  }

  lemma {:induction false} NoTables(t: nat)
    ensures TablesOf([]) == Repeat(Some(t), 0) && !ParaAfterTable(Nil)
  {}

  lemma {:induction false} AfterTableSolo(s: Shape)
    requires s.Solo?
    ensures ParaAfterTable(s) <==> ParaAfterTable(s.rest)
  {}

  lemma {:induction false} AfterTableBox(s: Shape)
    requires s.Box?
    ensures ParaAfterTable(s) <==>
            ParaAfterTable(s.kids) || ((s.name == TBL || HasTable(s.kids)) && ParaCount(s.rest) > 0) || ParaAfterTable(s.rest)
    ensures ParaCount(s.rest) == 0 ==> !ParaAfterTable(s.rest)
    ensures HasTable(s) <==> s.name == TBL || HasTable(s.kids) || HasTable(s.rest)
    ensures ParaCount(s) == (if s.name == PARA then 1 else 0) + ParaCount(s.kids) + ParaCount(s.rest)
  {
    if ParaCount(s.rest) == 0 {
      NoParaAfter(s.rest);
    }
  }

  lemma {:induction false} NoParaAfter(s: Shape)
    requires ParaCount(s) == 0
    ensures !ParaAfterTable(s)
  {
    match s
    case Nil =>
    case Solo(_, _, _, rest) => NoParaAfter(rest);
    case Box(_, _, _, kids, _, _, rest) =>
      NoParaAfter(kids);
      NoParaAfter(rest);
  }

  /** A list without table numbers is a list of `t`s only when it is empty. */
  lemma {:induction false} Mixed(es: seq<Entry>, t: nat, n: nat)
    requires TablesOf(es) == Repeat(None, n)
    ensures |es| == n && (TablesOf(es) == Repeat(Some(t), n) <==> n == 0)
  {
    if n > 0 {
      assert Repeat(None, n)[0] == None && Repeat(Some(t), n)[0] == Some(t);
    }
  }

  lemma {:induction false} AllThese(own: seq<Entry>, ks: seq<Entry>, rs: seq<Entry>, x: Option<nat>)
    requires TablesOf(own) == Repeat(x, |own|)
    ensures TablesOf(own + ks + rs) == Repeat(x, |own| + |ks| + |rs|) <==>
            TablesOf(ks) == Repeat(x, |ks|) && TablesOf(rs) == Repeat(x, |rs|)
  {
    TablesConcat(own, ks);
    TablesConcat(own + ks, rs);
    RepeatConcat(x, |own|, |ks|);
    RepeatConcat(x, |own| + |ks|, |rs|);
    SplitEqual(TablesOf(own + ks), TablesOf(rs), Repeat(x, |own| + |ks|), Repeat(x, |rs|));
    SplitEqual(TablesOf(own), TablesOf(ks), Repeat(x, |own|), Repeat(x, |ks|));
  }

  // ----- the top level -----

  lemma {:induction false} WalkTop(s: Shape, env: Env, w: Work) returns (es: seq<Entry>)
    requires env.direct && !env.inTable && w.openTables == []
    ensures var r := Walk(s, env, w);
            && r.located == w.located + es && r.openTables == []
            && |TablesOf(es)| == |TrueTables(s, w.tables)|
            && (TablesOf(es) == TrueTables(s, w.tables) <==> TablesCanBeRight(s))
    decreases s, 1
  {
    hide AddParagraph, Added, Enter, TablesOf, Repeat, ParaAfterTable;
    match s
    case Nil =>
      es := [];
      NoEntries();
    case Solo(name, start, end, rest) =>
      var own := TopParagraph(name, start, end, true, env, w);
      var rs := WalkTop(rest, env, if name == PARA then AddParagraph(w, env, start, end, true) else w);
      TablesConcat(own, rs);
      SplitEqual(TablesOf(own), TablesOf(rs), TablesOf(own), TrueTables(rest, w.tables));
      es := own + rs;
    case Box(_, _, _, _, _, _, _) => es := WalkTopBox(s, env, w);
  }

  lemma {:induction false} WalkTopBox(s: Shape, env: Env, w: Work) returns (es: seq<Entry>)
    requires s.Box? && env.direct && !env.inTable && w.openTables == []
    ensures var r := Walk(s, env, w);
            && r.located == w.located + es && r.openTables == []
            && |TablesOf(es)| == |TrueTables(s, w.tables)|
            && (TablesOf(es) == TrueTables(s, w.tables) <==> TablesCanBeRight(s))
    decreases s, 0
  {
    hide Walk, AddParagraph, Added, Enter, Leave, TablesOf, Repeat, HasTable, ParaCount, ParaAfterTable;
    var below := Below(s.name, env, w);
    var w0 := Enter(s.name, s.start, s.inner, env, w);
    var own := TopParagraph(s.name, s.start, s.inner, false, env, w);
    EnterTop(s.name, s.start, s.inner, env, w);
    WalkBox(s, env, w);
    if s.name == TBL {
      assert w0.openTables == [w.tables];
      var ks := WalkTable(s.kids, below, w0, w.tables);
      LeaveTables(TBL, Walk(s.kids, below, w0), w.tables);
      var rs := WalkTop(s.rest, env, Leave(TBL, Walk(s.kids, below, w0)));
      TablesConcat(ks, rs);
      RepeatSize(Some(w.tables), ks);
      SplitEqual(TablesOf(ks), TablesOf(rs), Repeat(Some(w.tables), ParaCount(s.kids)), TrueTables(s.rest, w.tables + 1));
      es := ks + rs;
      assert w.located + ks + rs == w.located + es;
    } else {
      var ks := WalkNoTable(s.kids, below, w0);
      LeaveTables(s.name, Walk(s.kids, below, w0), 0);
      var rs := WalkTop(s.rest, env, Leave(s.name, Walk(s.kids, below, w0)));
      TablesConcat(own, ks);
      TablesConcat(own + ks, rs);
      SplitEqual(TablesOf(own + ks), TablesOf(rs), TablesOf(own + ks), TrueTables(s.rest, w.tables));
      es := own + ks + rs;
      Regroup3(w.located, own, ks, rs);
    }
  }

  lemma {:induction false} RepeatSize(x: Option<nat>, es: seq<Entry>)
    ensures |TablesOf(es)| == |Repeat(x, |es|)|
  {}

  lemma {:induction false} TopParagraph(name: seq<byte>, start: nat, openEnd: nat, selfClosing: bool, env: Env, w: Work)
    returns (own: seq<Entry>)
    requires env.direct
    ensures TablesOf(own) == if name == PARA then [None] else []
    ensures name == PARA ==> AddParagraph(w, env, start, openEnd, selfClosing)
                             == w.(located := w.located + own, direct := w.direct + 1)
    ensures name != PARA ==> own == []
  {
    own := if name == PARA then [Added(w, env, start, openEnd, selfClosing)] else [];
  }

  lemma {:induction false} EnterTop(name: seq<byte>, start: nat, inner: nat, env: Env, w: Work)
    requires env.direct
    ensures var w0 := Enter(name, start, inner, env, w);
            if name == TBL then
              w0.located == w.located && w0.openTables == w.openTables + [w.tables] && w0.tables == w.tables + 1
            else if name == PARA then w0 == AddParagraph(w, env, start, inner, false)
            else w0.located == w.located && w0.openTables == w.openTables && w0.tables == w.tables
  {}

  /**
   For every well-formed document: the table number on every located paragraph is that of the table child of `body` it
   lies in (and absent outside one), if and only if in no such table a paragraph follows a nested table.
   */
  lemma {:induction false} LocateTables(f: Forest)
    requires WellFormed(f)
    ensures var part := Part(SeenIn(f, 0));
            var located := Locate(Scan(Print(f), 0));
            && located.Some?
            && (TablesOf(located.value) == TrueTables(part, 0) <==> TablesCanBeRight(part))
  {
    hide Scan, Events, Print, Run, Walk, ParaCloses, ParaOpens, Assign, TablesOf, Matches, Placed, EndsRight,
         SameButEnds, WellFormed, SeenIn, Tags, Spans, OpenOrder, CloseOrder, Part, TrueTables, TablesCanBeRight;
    var s := SeenIn(f, 0);
    var part := Part(s);
    ScanUndoesPrint(f);
    SeenTags(f, 0);
    TagsCloses(s);
    LocatedIsWalk(s);
    var es := WalkSpans(part, TOP, NOTHING);
    var ts := WalkTop(part, TOP, NOTHING);
    NothingLocated();
    assert [] + es == es && [] + ts == ts;
    PartFewer(s);
    AssignEnds(es, Spans(part), CloseOrder(s));
    TablesSame(es, Assign(es, CloseOrder(s)).value);
  }

  lemma {:induction false} TablesSame(es: seq<Entry>, fs: seq<Entry>)
    requires SameButEnds(es, fs)
    ensures TablesOf(es) == TablesOf(fs)
  {}

  // ----- concrete failures -----

  function Bare(local: seq<byte>): TagHead {
    TagHead(Name(None, local, true), [], [])
  }

  function Node(local: seq<byte>, kids: Forest, rest: Forest): Forest {
    Elem(Bare(local), kids, [], rest)
  }

  /** `<body><p><p></p></p></body>`: a paragraph nested in another gets the outer end and the other way round. */
  lemma {:induction false} NestedParagraphFails()
    ensures var f := Node(BODY, Node(PARA, Node(PARA, Done, Done), Done), Done);
            var located := Locate(Scan(Print(f), 0));
            WellFormed(f) && located.Some? && !EndsRight(located.value, Spans(Part(SeenIn(f, 0))))
  {
    hide Scan, Locate, Print, Spans, EndsRight, Placed, Numbered, InnerAt, CloseAt, EndAt;
    var inner := Node(PARA, Done, Done);
    var para := Node(PARA, inner, Done);
    var f := Node(BODY, para, Done);
    assert WellFormed(Done) && WellFormed(inner) && WellFormed(para);
    assert SeenIn(inner, 9).name == PARA;
    var s := SeenIn(f, 0);
    assert s.kids == FirstBody(s).value && s.kids.name == PARA && s.kids.kids.name == PARA;
    assert HasOpenPara(s.kids.kids) && !Flat(s.kids);
    RegionOfBody(s);
    assert HasOpenPara(Part(s));
    LocateDocument(f);
  }

  /** `<body><tbl><tbl></tbl><p></p></tbl></body>`: after the nested table the paragraph has lost its table. */
  lemma {:induction false} NestedTableFails()
    ensures var f := Node(BODY, Node(TBL, Node(TBL, Done, Node(PARA, Done, Done)), Done), Done);
            var located := Locate(Scan(Print(f), 0));
            WellFormed(f) && located.Some? && TablesOf(located.value) != TrueTables(Part(SeenIn(f, 0)), 0)
  {
    hide Scan, Locate, Print, TablesOf, TrueTables, InnerAt, CloseAt, EndAt;
    var para := Node(PARA, Done, Done);
    var nested := Node(TBL, Done, para);
    var table := Node(TBL, nested, Done);
    var f := Node(BODY, table, Done);
    assert WellFormed(Done) && WellFormed(para) && WellFormed(nested) && WellFormed(table);
    var s := SeenIn(f, 0);
    RegionOfBody(s);
    var part := Part(s);
    assert part.name == TBL && part.kids.name == TBL && part.kids.kids == Nil && part.kids.rest.name == PARA;
    assert ParaAfterTable(part.kids);
    LocateTables(f);
  }

  // ----- the direct-paragraph check of select_target -----

  /** The `p` children of a forest, whatever their names are made of. */
  function ParaChildren(f: Forest, off: nat): seq<Span> {
    match f
    case Done => []
    case LeafNode(l, rest) => ParaChildren(rest, LeafEnd(l, off))
    case Empty(h, rest) =>
      var end := EmptyEnd(h, off);
      (if h.name.local == PARA then [Span(off, end, end, true)] else []) + ParaChildren(rest, end)
    case Elem(h, kids, tail, rest) =>
      var end := EndAt(h, kids, tail, off);
      (if h.name.local == PARA then [Span(off, InnerAt(h, off), end, false)] else []) + ParaChildren(rest, end)
  }

  /** The `p` children that are bound to the WordprocessingML namespace, as the parsed tree reports them. */
  function BoundTopSpans(f: Forest, off: nat): seq<Span> {
    match f
    case Done => []
    case LeafNode(l, rest) => BoundTopSpans(rest, LeafEnd(l, off))
    case Empty(h, rest) =>
      var end := EmptyEnd(h, off);
      (if h.name.local == PARA && h.name.w then [Span(off, end, end, true)] else []) + BoundTopSpans(rest, end)
    case Elem(h, kids, tail, rest) =>
      var end := EndAt(h, kids, tail, off);
      (if h.name.local == PARA && h.name.w then [Span(off, InnerAt(h, off), end, false)] else []) + BoundTopSpans(rest, end)
  }

  /**
   The scan sees local names only, the parser resolves namespaces. Equal counts of direct paragraphs, the one thing
   compared, already mean that the k-th direct entry and the k-th parsed paragraph are the same element.
   */
  lemma {:induction false} EqualCountsAgree(f: Forest, off: nat)
    ensures |BoundTopSpans(f, off)| <= |ParaChildren(f, off)|
    ensures |BoundTopSpans(f, off)| == |ParaChildren(f, off)| <==> BoundTopSpans(f, off) == ParaChildren(f, off)
    decreases f
  {
    hide PrintOpen, PrintEmpty, PrintClose, PrintLeaf, Print;
    match f
    case Done =>
    case LeafNode(l, rest) => EqualCountsAgree(rest, LeafEnd(l, off));
    case Empty(h, rest) => EqualCountsAgree(rest, EmptyEnd(h, off));
    case Elem(h, kids, tail, rest) => EqualCountsAgree(rest, EndAt(h, kids, tail, off));
  }
}
