/** Which content control the locator gives a paragraph, and which entries are marked as direct. */
module LocatorControls {
  import opened Sequences
  import opened Scanner
  import opened Markup
  import opened Locator
  import opened LocatorTrees
  import opened LocatorResults
  import opened Locating
  import opened LocatorTables

  /** How an entry is marked: as a child of `body` with a number of its own, or with the control around it. */
  datatype Mark = Child | Deeper(control: Option<nat>) | Odd

  function MarkOf(e: Entry): Mark {
    if e.direct && e.id.Some? && e.table.None? && e.sdt.None? then Child
    else if !e.direct && e.id.None? then Deeper(e.sdt)
    else Odd
  }

  function MarksOf(es: seq<Entry>): seq<Mark> {
    seq(|es|, i requires 0 <= i < |es| => MarkOf(es[i]))
  }

  function ControlCount(s: Shape): nat {
    match s
    case Nil => 0
    case Solo(_, _, _, rest) => ControlCount(rest)
    case Box(name, _, _, kids, _, _, rest) => (if name == SDT then 1 else 0) + ControlCount(kids) + ControlCount(rest)
  }

  /**
   The right answer: a child of `body` is marked as one, any other paragraph with the number of the innermost control
   around it, the controls being numbered in the order in which they open.
   */
  function TrueMarks(s: Shape, next: nat, around: Option<nat>, top: bool): seq<Mark> {
    match s
    case Nil => []
    case Solo(name, _, _, rest) =>
      (if name == PARA then [if top then Child else Deeper(around)] else []) + TrueMarks(rest, next, around, top)
    case Box(name, _, _, kids, _, _, rest) =>
      var own := if name == PARA then [if top then Child else Deeper(around)] else [];
      var inner := if name == SDT then TrueMarks(kids, next + 1, Some(next), false) else TrueMarks(kids, next, around, false);
      own + inner + TrueMarks(rest, next + (if name == SDT then 1 else 0) + ControlCount(kids), around, top)
  }

  lemma {:induction false} MarksConcat(a: seq<Entry>, b: seq<Entry>)
    ensures MarksOf(a + b) == MarksOf(a) + MarksOf(b)
  {}

  lemma {:induction false} AddedMark(w: Work, env: Env, start: nat, openEnd: nat, selfClosing: bool) returns (e: Entry)
    ensures var r := AddParagraph(w, env, start, openEnd, selfClosing);
            && r.located == w.located + [e] && r.sdts == w.sdts && MarkOf(e) == if env.direct then Child else Deeper(env.sdt)
  {
    e := Added(w, env, start, openEnd, selfClosing);
  }

  lemma {:induction false} WalkMarks(s: Shape, env: Env, w: Work) returns (es: seq<Entry>)
    ensures var r := Walk(s, env, w);
            && r.located == w.located + es && r.sdts == w.sdts + ControlCount(s)
            && MarksOf(es) == TrueMarks(s, w.sdts, env.sdt, env.direct)
    decreases s, 1
  {
    hide AddParagraph, MarksOf, MarkOf;
    match s
    case Nil =>
      es := [];
      NoMarks();
    case Solo(name, start, end, rest) =>
      if name == PARA {
        var e := AddedMark(w, env, start, end, true);
        var rs := WalkMarks(rest, env, AddParagraph(w, env, start, end, true));
        es := [e] + rs;
        MarksConcat([e], rs);
        OneMark(e);
      } else {
        es := WalkMarks(rest, env, w);
        assert [] + TrueMarks(rest, w.sdts, env.sdt, env.direct) == TrueMarks(rest, w.sdts, env.sdt, env.direct);
      }
    case Box(_, _, _, _, _, _, _) => es := WalkMarksBox(s, env, w);
  }

  lemma {:induction false} WalkMarksBox(s: Shape, env: Env, w: Work) returns (es: seq<Entry>)
    requires s.Box?
    ensures var r := Walk(s, env, w);
            && r.located == w.located + es && r.sdts == w.sdts + ControlCount(s)
            && MarksOf(es) == TrueMarks(s, w.sdts, env.sdt, env.direct)
    decreases s, 0
  {
    hide AddParagraph, MarksOf, MarkOf, Walk, Enter, Leave;
    var own := EnterMark(s.name, s.start, s.inner, env, w);
    var w0, below := Enter(s.name, s.start, s.inner, env, w), Below(s.name, env, w);
    var ks := WalkMarks(s.kids, below, w0);
    WalkBox(s, env, w);
    LeaveSame(s.name, Walk(s.kids, below, w0));
    var rs := WalkMarks(s.rest, env, Leave(s.name, Walk(s.kids, below, w0)));
    MarksConcat(own, ks);
    MarksConcat(own + ks, rs);
    es := own + ks + rs;
    Regroup3(w.located, own, ks, rs);
  }

  lemma {:induction false} LeaveSame(name: seq<byte>, w: Work)
    ensures Leave(name, w).located == w.located && Leave(name, w).sdts == w.sdts
  {}

  lemma {:induction false} NoMarks()
    ensures MarksOf([]) == []
  {}

  lemma {:induction false} OneMark(e: Entry)
    ensures MarksOf([e]) == [MarkOf(e)]
  {}

  lemma {:induction false} EnterMark(name: seq<byte>, start: nat, inner: nat, env: Env, w: Work) returns (own: seq<Entry>)
    ensures var r := Enter(name, start, inner, env, w);
            && r.located == w.located + own && r.sdts == w.sdts + (if name == SDT then 1 else 0)
            && MarksOf(own) == if name == PARA then [if env.direct then Child else Deeper(env.sdt)] else []
  {
    hide AddParagraph, MarkOf;
    assert SDT != PARA && TBL != PARA && SDT != TBL;
    if name == PARA {
      var e := AddedMark(w, env, start, inner, false);
      own := [e];
      OneMark(e);
    } else {
      own := [];
      NoMarks();
    }
  }

  /** For every well-formed document the entries are marked rightly, in the part of it the locator works on. */
  lemma {:induction false} LocateControls(f: Forest)
    requires WellFormed(f)
    ensures var located := Locate(Scan(Print(f), 0));
            located.Some? && MarksOf(located.value) == TrueMarks(Part(SeenIn(f, 0)), 0, None, true)
  {
    hide Scan, Events, Print, Run, Walk, ParaCloses, ParaOpens, Assign, WellFormed, SeenIn, Tags, Spans, OpenOrder, CloseOrder,
         Part, Matches, Placed, EndsRight, SameButEnds, MarksOf, TrueMarks;
    var s := SeenIn(f, 0);
    var part, closes := Part(s), CloseOrder(s);
    ScanUndoesPrint(f);
    SeenTags(f, 0);
    TagsCloses(s);
    LocatedIsWalk(s);
    var es := WalkSpans(part, TOP, NOTHING);
    var ms := WalkMarks(part, TOP, NOTHING);
    NothingLocated();
    assert [] + es == es && [] + ms == ms;
    PartFewer(s);
    AssignEnds(es, Spans(part), closes);
    SameMarks(es, Assign(es, closes).value);
  }

  lemma {:induction false} SameMarks(es: seq<Entry>, fs: seq<Entry>)
    requires SameButEnds(es, fs)
    ensures MarksOf(es) == MarksOf(fs)
  {}
}
