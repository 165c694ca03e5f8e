/** The locator on whole documents: what it returns, when its paragraph ends are right, when its direct entries are. */
module Locating {
  import opened Sequences
  import opened Scanner
  import opened Markup
  import opened Locator
  import opened LocatorTrees
  import opened LocatorResults

  // ----- the closing tags of a document, split at its body -----

  predicate HasBody(s: Shape) {
    BodyRegion(s).Some?
  }

  /** The content of the first `body`, unless there is none or it is self-closing. */
  function FirstBody(s: Shape): Option<Shape> {
    match s
    case Nil => None
    case Solo(name, _, _, rest) => if name == BODY then None else FirstBody(rest)
    case Box(name, _, _, kids, _, _, rest) =>
      if name == BODY then Some(kids) else if HasBody(kids) then FirstBody(kids) else FirstBody(rest)
  }

  /** The ends of the `p` elements that close before `body` opens. */
  function ClosedBefore(s: Shape): seq<nat> {
    match s
    case Nil => []
    case Solo(name, _, _, rest) => if name == BODY then [] else ClosedBefore(rest)
    case Box(name, _, _, kids, _, end, rest) =>
      if name == BODY then []
      else if HasBody(kids) then ClosedBefore(kids)
      else CloseOrder(kids) + (if name == PARA then [end] else []) + ClosedBefore(rest)
  }

  /** The pass works on the content of the first `body`, up to the next closing tag of a `body`. */
  lemma {:induction false} RegionOfBody(s: Shape)
    requires FirstBody(s).Some?
    ensures BodyRegion(s) == Some(Region(Until(FirstBody(s).value), true))
  {
    match s
    case Solo(_, _, _, rest) => RegionOfBody(rest);
    case Box(name, _, _, kids, _, _, rest) =>
      if name != BODY {
        if HasBody(kids) {
          RegionOfBody(kids);
        } else {
          RegionOfBody(rest);
        }
      }
  }

  // ----- the closing tags after the opening tag of the first `body` -----

  function ClosesAfter(s: Shape): seq<nat> {
    match s
    case Nil => []
    case Solo(name, _, _, rest) => if name == BODY then CloseOrder(rest) else ClosesAfter(rest)
    case Box(name, _, _, kids, _, end, rest) =>
      if name == BODY then CloseOrder(kids) + CloseOrder(rest)
      else if HasBody(kids) then ClosesAfter(kids) + (if name == PARA then [end] else []) + CloseOrder(rest)
      else ClosesAfter(rest)
  }

  /** A `p` with a closing tag stands around the first `body`. */
  predicate InPara(s: Shape) {
    match s
    case Nil => false
    case Solo(name, _, _, rest) => name != BODY && InPara(rest)
    case Box(name, _, _, kids, _, _, rest) =>
      name != BODY && (if HasBody(kids) then name == PARA || InPara(kids) else InPara(rest))
  }

  /**
   No `p` nests in a located one; and behind `<body/>`, once a `p` around it has closed, no more `p` with a closing tag
   is located.
   */
  predicate FlatAfter(s: Shape) {
    match s
    case Nil => true
    case Solo(name, _, _, rest) => if name == BODY then Flat(rest) else FlatAfter(rest)
    case Box(name, _, _, kids, _, _, rest) =>
      if name == BODY then Flat(kids)
      else
        match BodyRegion(kids)
        case None => FlatAfter(rest)
        case Some(r) =>
          FlatAfter(kids) && (r.closed || (if name == PARA || InPara(kids) then !HasOpenPara(Until(rest)) else Flat(rest)))
  }

  /** When the first `body` has both tags, only its content matters. */
  lemma {:induction false} FlatInBody(s: Shape)
    requires FirstBody(s).Some?
    ensures FlatAfter(s) <==> Flat(FirstBody(s).value)
  {
    match s
    case Solo(_, _, _, rest) => FlatInBody(rest);
    case Box(name, _, _, kids, _, _, rest) =>
      if name != BODY {
        if HasBody(kids) {
          RegionOfBody(kids);
          FlatInBody(kids);
        } else {
          FlatInBody(rest);
        }
      }
  }

  /** The opening order of what the pass works on, and the closing tags from there on. */
  ghost predicate AfterOrders(s: Shape, lo: nat, at: nat, hi: nat)
    requires HasBody(s)
  {
    var region, after := BodyRegion(s).value, ClosesAfter(s);
    var order := OpenOrder(Spans(region.part));
    && CloseOrder(s) == ClosedBefore(s) + after
    && lo <= at <= hi && Within(ClosedBefore(s), lo, at) && Within(order, at, hi) && Within(after, at, hi)
    && |order| <= |after| && (!region.closed ==> (|order| == |after| <==> !InPara(s)))
    && (Begins(order, after) <==> FlatAfter(s))
  }

  lemma {:induction false} OrdersAfter(s: Shape, lo: nat, hi: nat) returns (at: nat)
    requires HasBody(s) && Ordered(s, lo, hi)
    ensures AfterOrders(s, lo, at, hi)
    decreases s
  {
    hide AfterOrders, Within, Begins, Spans, OpenOrder, CloseOrder, Flat;
    match s
    case Solo(name, _, end, rest) =>
      OrderedBounds(rest, end, hi);
      if name == BODY {
        at := end;
        AfterEmptyBody(s, lo, hi);
      } else {
        SoloHasBody(s);
        at := OrdersAfter(rest, end, hi);
        AfterSolo(s, lo, at, hi);
      }
    case Box(name, start, inner, kids, close, end, rest) =>
      OrderedBounds(kids, inner, close);
      OrderedBounds(rest, end, hi);
      if name == BODY {
        at := inner;
        AfterBodyBox(s, lo, hi);
      } else if HasBody(kids) {
        at := OrdersAfter(kids, inner, close);
        AfterAround(s, lo, at, hi);
      } else {
        BoxHasBody(s);
        at := OrdersAfter(rest, end, hi);
        AfterBefore(s, lo, at, hi);
      }
  }

  lemma {:induction false} SoloHasBody(s: Shape)
    requires s.Solo? && s.name != BODY && HasBody(s)
    ensures HasBody(s.rest) && BodyRegion(s) == BodyRegion(s.rest)
  {}

  lemma {:induction false} BoxHasBody(s: Shape)
    requires s.Box? && s.name != BODY && HasBody(s) && !HasBody(s.kids)
    ensures HasBody(s.rest) && BodyRegion(s) == BodyRegion(s.rest)
  {}

  lemma {:induction false} AfterEmptyBody(s: Shape, lo: nat, hi: nat)
    requires s.Solo? && s.name == BODY && Ordered(s, lo, hi) && s.end <= hi
    ensures HasBody(s) && AfterOrders(s, lo, s.end, hi)
  {
    hide Within, Begins, Spans, OpenOrder, CloseOrder, Flat, Until, Cuts, Ordered;
    OrderedParts(s, lo, hi);
    OrdersAgree(s.rest, s.end, hi);
    UntilFewer(s.rest);
    UntilOrdered(s.rest, s.end, hi);
    Sizes(Until(s.rest), s.end, hi);
    Sizes(s.rest, s.end, hi);
    WithinNone(lo, s.end);
    SoloCloses(s);
    assert lo <= s.end by { SoloBounds(s, lo, hi); }
    assert [] + CloseOrder(s.rest) == CloseOrder(s.rest);
    if !Cuts(s.rest) {
      UntilAll(s.rest);
    }
  }

  lemma {:induction false} SoloCloses(s: Shape)
    requires s.Solo?
    ensures CloseOrder(s) == CloseOrder(s.rest)
  {}

  lemma {:induction false} SoloBounds(s: Shape, lo: nat, hi: nat)
    requires !s.Nil? && Ordered(s, lo, hi)
    ensures lo <= s.end
    ensures s.Box? ==> lo <= s.inner && Ordered(s.kids, s.inner, s.close) && s.close < s.end
  {
    if s.Box? {
      OrderedBounds(s.kids, s.inner, s.close);
    }
  }

  lemma {:induction false} AfterSolo(s: Shape, lo: nat, at: nat, hi: nat)
    requires s.Solo? && s.name != BODY && Ordered(s, lo, hi) && HasBody(s.rest) && AfterOrders(s.rest, s.end, at, hi)
    ensures HasBody(s) && AfterOrders(s, lo, at, hi)
  {
    hide Within, Begins, Spans, OpenOrder, CloseOrder, Flat, Ordered;
    SoloCloses(s);
    SoloBounds(s, lo, hi);
    WithinFrom(ClosedBefore(s.rest), lo, s.end, at);
  }

  lemma {:induction false} AfterBodyBox(s: Shape, lo: nat, hi: nat)
    requires s.Box? && s.name == BODY && Ordered(s, lo, hi) && s.end <= hi
    ensures HasBody(s) && AfterOrders(s, lo, s.inner, hi)
  {
    hide Within, Begins, Spans, OpenOrder, CloseOrder, Flat, Until, Cuts, Ordered;
    var kids, inner, close := s.kids, s.inner, s.close;
    OrderedParts(s, lo, hi);
    SoloBounds(s, lo, hi);
    OrderedBounds(kids, inner, close);
    OrdersAgree(kids, inner, close);
    UntilFewer(kids);
    UntilOrdered(kids, inner, close);
    Sizes(Until(kids), inner, close);
    Sizes(kids, inner, close);
    Sizes(s.rest, s.end, hi);
    WithinNone(lo, inner);
    var ck, cr := CloseOrder(kids), CloseOrder(s.rest);
    WithinConcat(ck, cr, inner, close, s.end, hi);
    WithinFrom(OpenOrder(Spans(Until(kids))), inner, inner, close);
    WithinTo(OpenOrder(Spans(Until(kids))), inner, close, hi);
    BeginsLonger(OpenOrder(Spans(Until(kids))), ck, cr);
    BoxCloses(s);
    assert ck + [] + cr == ck + cr && [] + (ck + cr) == ck + cr;
  }

  lemma {:induction false} WithinTo(ends: seq<nat>, lo: nat, hi: nat, hi': nat)
    requires hi <= hi' && Within(ends, lo, hi)
    ensures Within(ends, lo, hi')
  {}

  lemma {:induction false} BoxCloses(s: Shape)
    requires s.Box?
    ensures CloseOrder(s) == CloseOrder(s.kids) + (if s.name == PARA then [s.end] else []) + CloseOrder(s.rest)
  {}

  /** An element before the first `body`. */
  lemma {:induction false} AfterBefore(s: Shape, lo: nat, at: nat, hi: nat)
    requires s.Box? && s.name != BODY && Ordered(s, lo, hi) && !HasBody(s.kids)
    requires HasBody(s.rest) && AfterOrders(s.rest, s.end, at, hi)
    ensures HasBody(s) && AfterOrders(s, lo, at, hi)
  {
    hide Within, Begins, Spans, OpenOrder, CloseOrder, Flat, Ordered;
    SoloBounds(s, lo, hi);
    OrderedBounds(s.kids, s.inner, s.close);
    Sizes(s.kids, s.inner, s.close);
    BoxCloses(s);
    var own := if s.name == PARA then [s.end] else [];
    var ck := CloseOrder(s.kids);
    WithinThree(ck, own, ClosedBefore(s.rest), lo, s.inner, s.close, s.end, at);
    RegroupSpans(ck + own, ClosedBefore(s.rest), ClosesAfter(s.rest));
  }

  /** An element around the first `body`. */
  lemma {:induction false} AfterAround(s: Shape, lo: nat, at: nat, hi: nat)
    requires s.Box? && s.name != BODY && Ordered(s, lo, hi) && s.end <= hi
    requires HasBody(s.kids) && AfterOrders(s.kids, s.inner, at, s.close)
    ensures HasBody(s) && AfterOrders(s, lo, at, hi)
  {
    hide Within, Begins, Spans, OpenOrder, CloseOrder, Flat, Ordered, Until, Cuts, HasOpenPara;
    var kids, rest, inner, close, end := s.kids, s.rest, s.inner, s.close, s.end;
    OrderedParts(s, lo, hi);
    SoloBounds(s, lo, hi);
    BoxCloses(s);
    Sizes(rest, end, hi);
    var own := if s.name == PARA then [end] else [];
    var r := BodyRegion(kids).value;
    var ok, ck := OpenOrder(Spans(r.part)), ClosesAfter(kids);
    var or, cr := OpenOrder(Spans(Until(rest))), CloseOrder(rest);
    WithinFrom(ClosedBefore(kids), lo, inner, at);
    OwnWithin(own, close, end);
    WithinConcat(ck, own, at, close, close, end);
    WithinConcat(ck + own, cr, at, end, end, hi);
    RegroupTail(ClosedBefore(kids), ck, own, cr);
    if r.closed {
      WithinTo(ok, at, close, hi);
      assert ck + own + cr == ck + (own + cr);
      BeginsLonger(ok, ck, own + cr);
    } else {
      SpansAppend(r.part, Until(rest));
      OpenOrderConcat(Spans(r.part), Spans(Until(rest)));
      UntilOrdered(rest, end, hi);
      Sizes(Until(rest), end, hi);
      UntilFewer(rest);
      OrdersAgree(rest, end, hi);
      WithinConcat(ok, or, at, close, end, hi);
      FollowingOrders(ok, ck, own, or, cr, at, close, end, hi);
      if !Cuts(rest) {
        UntilAll(rest);
      }
    }
  }

  lemma {:induction false} OwnWithin(own: seq<nat>, close: nat, end: nat)
    requires close < end && (own == [] || own == [end])
    ensures Within(own, close, end)
  {}

  /** Going on behind an element that closes: the orders agree when they did, unless a closing tag came between. */
  lemma {:induction false} FollowingOrders(ok: seq<nat>, ck: seq<nat>, own: seq<nat>, or: seq<nat>, cr: seq<nat>,
                                           at: nat, close: nat, end: nat, hi: nat)
    requires |ok| <= |ck| && |or| <= |cr| && (own == [] || own == [end]) && close < end
    requires Within(ck, at, close) && Within(or, end, hi)
    ensures Begins(ok + or, ck + own + cr) <==>
            Begins(ok, ck) && (if own != [] || |ok| < |ck| then or == [] else Begins(or, cr))
  {
    hide Within;
    var all := ck + own + cr;
    if own == [] && |ok| == |ck| {
      assert all == ck + cr;
      BeginsBoth(ok, ck, or, cr);
      BeginsAll(ok, ck);
    } else if or == [] {
      assert ok + or == ok && all == ck + (own + cr);
      BeginsLonger(ok, ck, own + cr);
    } else {
      NextEnd(ok, ck, own, cr, at, close, end);
      FirstAbove(or, end, hi);
      assert (ok + or)[|ok|] == or[0];
    }
  }

  /** The closing tag where the opening order has gone through `ok` is one that comes before what follows. */
  lemma {:induction false} NextEnd(ok: seq<nat>, ck: seq<nat>, own: seq<nat>, cr: seq<nat>, at: nat, close: nat, end: nat)
    requires |ok| <= |ck| && (own == [end] || (own == [] && |ok| < |ck|)) && close < end && Within(ck, at, close)
    ensures |ok| < |ck + own + cr| && (ck + own + cr)[|ok|] <= end
  {}

  lemma {:induction false} RegroupTail<T>(a: seq<T>, b: seq<T>, c: seq<T>, d: seq<T>)
    ensures (a + b) + c + d == a + (b + c + d)
  {}

  lemma {:induction false} OpenParas(s: Shape)
    ensures HasOpenPara(s) <==> OpenOrder(Spans(s)) != []
  {
    hide OpenOrder, Spans;
    OpenOrderOf(s);
    match s
    case Nil =>
    case Solo(_, _, _, rest) => OpenParas(rest);
    case Box(_, _, _, kids, _, _, rest) =>
      OpenParas(kids);
      OpenParas(rest);
  }

  lemma {:induction false} TagCloses(t: Tag)
    ensures ParaCloses([t]) == if t.closing && t.name == PARA then [t.end] else []
    ensures ParaOpens([t]) == if !t.closing && !t.selfClosing && t.name == PARA then 1 else 0
  {
    assert [t][1..] == [];
  }

  lemma {:induction false} TagsCloses(s: Shape)
    ensures ParaCloses(Tags(s)) == CloseOrder(s)
    ensures ParaOpens(Tags(s)) == |CloseOrder(s)|
  {
    hide ParaCloses, ParaOpens;
    match s
    case Nil => NoCloses();
    case Solo(name, start, end, rest) =>
      var own := Tag(name, false, true, start, end);
      ClosesConcat([own], Tags(rest));
      TagCloses(own);
      TagsCloses(rest);
    case Box(name, start, inner, kids, close, end, rest) =>
      var a, c := Tag(name, false, false, start, inner), Tag(name, true, false, close, end);
      ClosesConcat([a] + Tags(kids) + [c], Tags(rest));
      ClosesConcat([a] + Tags(kids), [c]);
      ClosesConcat([a], Tags(kids));
      TagCloses(a);
      TagCloses(c);
      TagsCloses(kids);
      TagsCloses(rest);
  }

  lemma {:induction false} NoCloses()
    ensures ParaCloses([]) == [] && ParaOpens([]) == 0
  {}

  /** What the pass works on has no more paragraphs with closing tags than there are closing tags. */
  lemma {:induction false} PartFewer(s: Shape)
    ensures |OpenOrder(Spans(Part(s)))| <= |CloseOrder(s)|
  {
    hide OpenOrder, Spans;
    OpenOrderOf(Nil);
    if HasBody(s) {
      RegionFewer(s);
    }
  }

  lemma {:induction false} RegionFewer(s: Shape)
    requires HasBody(s)
    ensures |OpenOrder(Spans(BodyRegion(s).value.part))| <= |CloseOrder(s)|
  {
    hide OpenOrder, Spans;
    match s
    case Solo(name, _, _, rest) =>
      if name == BODY {
        UntilFewer(rest);
      } else {
        RegionFewer(rest);
      }
    case Box(name, _, _, kids, _, _, rest) =>
      UntilFewer(kids);
      UntilFewer(rest);
      if name != BODY {
        if HasBody(kids) {
          RegionFewer(kids);
          SpansAppend(BodyRegion(kids).value.part, Until(rest));
          OpenOrderConcat(Spans(BodyRegion(kids).value.part), Spans(Until(rest)));
        } else {
          RegionFewer(rest);
        }
      }
  }

  lemma {:induction false} SpansAppend(a: Shape, b: Shape)
    ensures Spans(Append(a, b)) == Spans(a) + Spans(b)
  {
    match a
    case Nil =>
    case Solo(name, start, end, rest) =>
      SpansAppend(rest, b);
      RegroupSpans(if name == PARA then [Span(start, end, end, true)] else [], Spans(rest), Spans(b));
    case Box(name, start, inner, kids, _, end, rest) =>
      SpansAppend(rest, b);
      RegroupSpans((if name == PARA then [Span(start, inner, end, false)] else []) + Spans(kids), Spans(rest), Spans(b));
  }

  lemma {:induction false} RegroupSpans<T>(a: seq<T>, b: seq<T>, c: seq<T>)
    ensures (a + b) + c == a + (b + c)
  {}

  // ----- assigning ends -----

  /** The entries are the given elements, apart from their ends. */
  ghost predicate Placed(es: seq<Entry>, spans: seq<Span>) {
    && |es| == |spans|
    && forall i :: 0 <= i < |es| ==>
         es[i].start == spans[i].start && es[i].openEnd == spans[i].openEnd && es[i].end.Some?
  }

  ghost predicate EndsRight(es: seq<Entry>, spans: seq<Span>) {
    |es| == |spans| && forall i :: 0 <= i < |es| ==> es[i].end == Some(spans[i].end)
  }

  ghost predicate SameButEnds(es: seq<Entry>, fs: seq<Entry>) {
    |es| == |fs| && forall i :: 0 <= i < |es| ==> fs[i] == es[i].(end := fs[i].end)
  }

  lemma {:induction false} AssignEnds(es: seq<Entry>, spans: seq<Span>, closes: seq<nat>)
    requires Matches(es, spans) && |OpenOrder(spans)| <= |closes|
    ensures var r := Assign(es, closes);
            && r.Some? && Placed(r.value, spans) && SameButEnds(es, r.value)
            && (EndsRight(r.value, spans) <==> OpenOrder(spans) == closes[..|OpenOrder(spans)|])
    decreases |es|
  {
    hide Placed, EndsRight, SameButEnds, Matches;
    if es == [] {
      NothingPlaced(es, spans);
    } else {
      MatchesHead(es, spans);
      var order := OpenOrder(spans[1..]);
      var more := if spans[0].empty then closes else closes[1..];
      var e := if spans[0].empty then es[0] else es[0].(end := Some(closes[0]));
      AssignEnds(es[1..], spans[1..], more);
      var rest := Assign(es[1..], more).value;
      PlacedCons(es[0], e, es[1..], rest, spans[0], spans[1..]);
      EndsCons(e, rest, spans[0], spans[1..]);
      assert [es[0]] + es[1..] == es && [spans[0]] + spans[1..] == spans;
      if spans[0].empty {
        assert [] + order == order;
      } else {
        assert closes[..1 + |order|] == [closes[0]] + more[..|order|];
        SplitEqual([spans[0].end], order, [closes[0]], more[..|order|]);
      }
    }
  }

  lemma {:induction false} NothingPlaced(es: seq<Entry>, spans: seq<Span>)
    requires es == [] && Matches(es, spans)
    ensures spans == [] && Placed([], []) && SameButEnds([], []) && EndsRight([], [])
  {}

  lemma {:induction false} MatchesHead(es: seq<Entry>, spans: seq<Span>)
    requires es != [] && Matches(es, spans)
    ensures |es| == |spans| && es[0].start == spans[0].start && es[0].openEnd == spans[0].openEnd
    ensures es[0].end == if spans[0].empty then Some(spans[0].end) else None
    ensures Matches(es[1..], spans[1..])
  {}

  lemma {:induction false} PlacedCons(e0: Entry, e: Entry, es: seq<Entry>, rest: seq<Entry>, s: Span, spans: seq<Span>)
    requires e == e0.(end := e.end) && e.end.Some? && e.start == s.start && e.openEnd == s.openEnd
    requires Placed(rest, spans) && SameButEnds(es, rest)
    ensures Placed([e] + rest, [s] + spans) && SameButEnds([e0] + es, [e] + rest)
  {}

  lemma {:induction false} EndsCons(e: Entry, es: seq<Entry>, s: Span, spans: seq<Span>)
    requires |es| == |spans|
    ensures EndsRight([e] + es, [s] + spans) <==> e.end == Some(s.end) && EndsRight(es, spans)
  {
    var all, sp := [e] + es, [s] + spans;
    assert all[0] == e && sp[0] == s;
    if EndsRight(all, sp) {
      forall i | 0 <= i < |es| ensures es[i].end == Some(spans[i].end) {
        assert all[i + 1] == es[i] && sp[i + 1] == spans[i];
      }
    }
  }

  lemma {:induction false} DirectsSame(es: seq<Entry>, fs: seq<Entry>, spans: seq<Span>, from: nat)
    requires SameButEnds(es, fs) && Numbered(Directs(es), spans, from)
    ensures Numbered(Directs(fs), spans, from)
    decreases |es|
  {
    if es != [] {
      assert SameButEnds(es[1..], fs[1..]);
      if es[0].direct {
        var ds := Directs(es);
        assert ds[0] == es[0] && ds[1..] == Directs(es[1..]);
        assert Numbered(Directs(es[1..]), spans[1..], from + 1);
        DirectsSame(es[1..], fs[1..], spans[1..], from + 1);
        NumberedCons(fs[0], Directs(fs[1..]), spans[0], spans[1..], from);
        assert [spans[0]] + spans[1..] == spans;
      } else {
        assert Directs(es) == Directs(es[1..]) && Directs(fs) == Directs(fs[1..]);
        DirectsSame(es[1..], fs[1..], spans, from);
      }
    }
  }

  // ----- the document theorem -----

  /**
   The caller's test: nothing to pair, or no `p` closes before the opening tag of `body`, no `p` with a closing tag nests
   in one of those that are located, and behind `<body/>` none follows a `p` that was opened before it.
   */
  predicate EndsCanBeRight(s: Shape) {
    !HasOpenPara(Part(s)) || (ClosedBefore(s) == [] && FlatAfter(s))
  }

  /**
   For every well-formed document: the locator succeeds, its entries are exactly the `p` elements of what it works on in
   document order, its direct entries are `P0`, `P1`, ... at exactly the outermost of these, and its paragraph ends are
   all right if and only if that test holds.
   */
  lemma {:induction false} LocateDocument(f: Forest)
    requires WellFormed(f)
    ensures var s := SeenIn(f, 0);
            var located := Locate(Scan(Print(f), 0));
            && located.Some?
            && Placed(located.value, Spans(Part(s)))
            && Numbered(Directs(located.value), TopSpans(Part(s)), 0)
            && (EndsRight(located.value, Spans(Part(s))) <==> EndsCanBeRight(s))
  {
    hide Scan, Events, Print, Run, Walk, ParaCloses, ParaOpens, Assign, Directs, Numbered, Matches, Placed, EndsRight,
         SameButEnds, WellFormed, SeenIn, Tags, Spans, TopSpans, OpenOrder, CloseOrder, FirstBody, BodyRegion,
         ClosedBefore, Flat, FlatAfter, HasOpenPara, EndsCanBeRight, Part;
    var s := SeenIn(f, 0);
    var part, closes := Part(s), CloseOrder(s);
    ScanUndoesPrint(f);
    SeenTags(f, 0);
    TagsCloses(s);
    LocatedIsWalk(s);
    var es := WalkSpans(part, TOP, NOTHING);
    var ds := WalkDirects(part, TOP, NOTHING);
    NothingLocated();
    assert [] + es == es && [] + ds == ds;
    PartFewer(s);
    AssignEnds(es, Spans(part), closes);
    DirectsSame(es, Assign(es, closes).value, TopSpans(part), 0);
    SeenOrdered(f, 0);
    EndsByOrder(s, 0, |Print(f)|);
  }

  /** The ends in opening order are the first closing tags exactly when they can be right. */
  lemma {:induction false} EndsByOrder(s: Shape, lo: nat, hi: nat)
    requires Ordered(s, lo, hi)
    ensures Begins(OpenOrder(Spans(Part(s))), CloseOrder(s)) <==> EndsCanBeRight(s)
  {
    hide Spans, OpenOrder, CloseOrder, FirstBody, ClosedBefore, Flat, FlatAfter, HasOpenPara, Begins, Within, Ordered,
         ClosesAfter, InPara;
    var order := OpenOrder(Spans(Part(s)));
    OpenParas(Part(s));
    if order == [] {
      BeginsNone(CloseOrder(s));
    } else if !HasBody(s) {
      OpenOrderOf(Nil);
      assert false;
    } else {
      var at := OrdersAfter(s, lo, hi);
      var before, after := ClosedBefore(s), ClosesAfter(s);
      if before == [] {
        assert [] + after == after;
      } else {
        FirstBelow(before, lo, at);
        FirstAbove(order, at, hi);
        BeginsNot(order, before + after);
      }
    }
  }

  lemma {:induction false} FirstAbove(ends: seq<nat>, lo: nat, hi: nat)
    requires ends != [] && Within(ends, lo, hi)
    ensures lo < ends[0]
  {}

  lemma {:induction false} NothingLocated()
    ensures NOTHING.located == [] && Directs([]) == [] && NOTHING.direct == 0
  {}
}
