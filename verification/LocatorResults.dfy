/** What the located paragraphs of a document are: their spans, their direct ids and the order of their ends. */
module LocatorResults {
  import opened Sequences
  import opened Locator
  import opened LocatorTrees

  /** A `p` element: where its open tag starts and ends, where the element ends, whether it is self-closing. */
  datatype Span = Span(start: nat, openEnd: nat, end: nat, empty: bool)

  /** Every `p` element, in document order. */
  function Spans(s: Shape): seq<Span> {
    match s
    case Nil => []
    case Solo(name, start, end, rest) => (if name == PARA then [Span(start, end, end, true)] else []) + Spans(rest)
    case Box(name, start, inner, kids, _, end, rest) =>
      (if name == PARA then [Span(start, inner, end, false)] else []) + Spans(kids) + Spans(rest)
  }

  /** The `p` elements among the siblings. */
  function TopSpans(s: Shape): seq<Span> {
    match s
    case Nil => []
    case Solo(name, start, end, rest) => (if name == PARA then [Span(start, end, end, true)] else []) + TopSpans(rest)
    case Box(name, start, inner, _, _, end, rest) =>
      (if name == PARA then [Span(start, inner, end, false)] else []) + TopSpans(rest)
  }

  /** The ends of the `p` elements that have a closing tag, in the order their elements open. */
  function OpenOrder(spans: seq<Span>): seq<nat> {
    if spans == [] then []
    else (if spans[0].empty then [] else [spans[0].end]) + OpenOrder(spans[1..])
  }

  /** The same ends in the order their elements close. */
  function CloseOrder(s: Shape): seq<nat> {
    match s
    case Nil => []
    case Solo(_, _, _, rest) => CloseOrder(rest)
    case Box(name, _, _, kids, _, end, rest) =>
      CloseOrder(kids) + (if name == PARA then [end] else []) + CloseOrder(rest)
  }

  predicate HasOpenPara(s: Shape) {
    match s
    case Nil => false
    case Solo(_, _, _, rest) => HasOpenPara(rest)
    case Box(name, _, _, kids, _, _, rest) => name == PARA || HasOpenPara(kids) || HasOpenPara(rest)
  }

  /** No `p` with a closing tag stands inside another `p` that opens before a `body` closes. */
  predicate Flat(s: Shape) {
    match s
    case Nil => true
    case Solo(_, _, _, rest) => Flat(rest)
    case Box(name, _, _, kids, _, _, rest) =>
      (name == PARA ==> !HasOpenPara(kids)) && Flat(kids) && (name == BODY || Cuts(kids) || Flat(rest))
  }

  // ----- every located paragraph is a `p` element -----

  /** Entries as the pass leaves them, before ends are assigned. */
  ghost predicate Matches(es: seq<Entry>, spans: seq<Span>) {
    && |es| == |spans|
    && forall i :: 0 <= i < |es| ==>
         (es[i].start == spans[i].start && es[i].openEnd == spans[i].openEnd
          && es[i].end == if spans[i].empty then Some(spans[i].end) else None)
  }

  lemma {:induction false} MatchesConcat(a: seq<Entry>, b: seq<Entry>, s: seq<Span>, t: seq<Span>)
    requires Matches(a, s) && Matches(b, t)
    ensures Matches(a + b, s + t)
  {}

  function Added(w: Work, env: Env, start: nat, openEnd: nat, selfClosing: bool): Entry {
    var v := AddParagraph(w, env, start, openEnd, selfClosing).located;
    v[|v| - 1]
  }

  lemma {:induction false} AddedMatches(w: Work, env: Env, start: nat, openEnd: nat, selfClosing: bool, end: nat)
    requires selfClosing ==> end == openEnd
    ensures var e := Added(w, env, start, openEnd, selfClosing);
            && AddParagraph(w, env, start, openEnd, selfClosing).located == w.located + [e]
            && Matches([e], [Span(start, openEnd, end, selfClosing)])
  {}

  lemma {:induction false} MatchesNone()
    ensures Matches([], [])
  {}

  lemma {:induction false} EnterLocated(name: seq<byte>, start: nat, inner: nat, env: Env, w: Work)
    ensures Enter(name, start, inner, env, w).located
         == if name == PARA then AddParagraph(w, env, start, inner, false).located else w.located
    ensures Leave(name, w).located == w.located
  {}

  lemma {:induction false} WalkSpans(s: Shape, env: Env, w: Work) returns (es: seq<Entry>)
    ensures Walk(s, env, w).located == w.located + es
    ensures Matches(es, Spans(s))
    decreases s
  {
    hide AddParagraph, Added, Matches, Enter, Leave;
    MatchesNone();
    match s
    case Nil => es := [];
    case Solo(name, start, end, rest) =>
      if name == PARA {
        AddedMatches(w, env, start, end, true, end);
        var e := Added(w, env, start, end, true);
        es := WalkSpans(rest, env, AddParagraph(w, env, start, end, true));
        MatchesConcat([e], es, [Span(start, end, end, true)], Spans(rest));
        es := [e] + es;
      } else {
        es := WalkSpans(rest, env, w);
        assert [] + Spans(rest) == Spans(rest);
      }
    case Box(name, start, inner, kids, _, end, rest) =>
      var w0, below := Enter(name, start, inner, env, w), Below(name, env, w);
      AddedMatches(w, env, start, inner, false, end);
      var own := if name == PARA then [Added(w, env, start, inner, false)] else [];
      var mine := if name == PARA then [Span(start, inner, end, false)] else [];
      EnterLocated(name, start, inner, env, w);
      var ks := WalkSpans(kids, below, w0);
      EnterLocated(name, start, inner, env, Walk(kids, below, w0));
      var rs := WalkSpans(rest, env, Leave(name, Walk(kids, below, w0)));
      MatchesConcat(own, ks, mine, Spans(kids));
      MatchesConcat(own + ks, rs, mine + Spans(kids), Spans(rest));
      es := own + ks + rs;
  }

  // ----- direct entries -----

  function Directs(es: seq<Entry>): seq<Entry> {
    if es == [] then [] else (if es[0].direct then [es[0]] else []) + Directs(es[1..])
  }

  lemma {:induction false} DirectsConcat(a: seq<Entry>, b: seq<Entry>)
    ensures Directs(a + b) == Directs(a) + Directs(b)
    decreases |a|
  {
    hide Directs;
    if a == [] {
      assert a + b == b;
      NoDirects();
    } else {
      assert (a + b)[1..] == a[1..] + b && (a + b)[0] == a[0];
      DirectsConcat(a[1..], b);
      var own := if a[0].direct then [a[0]] else [];
      DirectsHead(a);
      DirectsHead(a + b);
      assert own + (Directs(a[1..]) + Directs(b)) == own + Directs(a[1..]) + Directs(b);
    }
  }

  lemma {:induction false} NoDirects()
    ensures Directs([]) == []
  {}

  lemma {:induction false} DirectsHead(es: seq<Entry>)
    requires es != []
    ensures Directs(es) == (if es[0].direct then [es[0]] else []) + Directs(es[1..])
  {}

  /** Entries numbered `P{from}`, `P{from + 1}`, ... at the given spans. */
  ghost predicate Numbered(es: seq<Entry>, spans: seq<Span>, from: nat) {
    && |es| == |spans|
    && forall i :: 0 <= i < |es| ==>
         es[i].id == Some(from + i) && es[i].start == spans[i].start && es[i].openEnd == spans[i].openEnd
  }

  /** What entering an element or meeting a self-closing one does to the direct entries. */
  lemma {:induction false} AddedDirect(w: Work, env: Env, start: nat, openEnd: nat, selfClosing: bool)
    ensures var w' := AddParagraph(w, env, start, openEnd, selfClosing);
            var e := Added(w, env, start, openEnd, selfClosing);
            && Directs(w'.located) == Directs(w.located) + (if env.direct then [e] else [])
            && w'.direct == w.direct + (if env.direct then 1 else 0)
            && (env.direct ==> e.id == Some(w.direct) && e.start == start && e.openEnd == openEnd)
  {
    var e := Added(w, env, start, openEnd, selfClosing);
    DirectsConcat(w.located, [e]);
    assert [e][1..] == [];
  }

  lemma {:induction false} NumberedCons(e: Entry, es: seq<Entry>, s: Span, spans: seq<Span>, from: nat)
    requires e.id == Some(from) && e.start == s.start && e.openEnd == s.openEnd && Numbered(es, spans, from + 1)
    ensures Numbered([e] + es, [s] + spans, from)
  {}

  lemma {:induction false} WalkDirects(s: Shape, env: Env, w: Work) returns (ds: seq<Entry>)
    ensures var r := Walk(s, env, w);
            && Directs(r.located) == Directs(w.located) + ds
            && r.direct == w.direct + |ds|
            && if env.direct then Numbered(ds, TopSpans(s), w.direct) else ds == []
    decreases s
  {
    hide AddParagraph, Added, Directs, Numbered;
    match s
    case Nil =>
      ds := [];
      NumberedNone(w.direct);
    case Solo(name, start, end, rest) =>
      if name == PARA {
        AddedDirect(w, env, start, end, true);
        var e := Added(w, env, start, end, true);
        ds := WalkDirects(rest, env, AddParagraph(w, env, start, end, true));
        if env.direct {
          NumberedCons(e, ds, Span(start, end, end, true), TopSpans(rest), w.direct);
          ds := [e] + ds;
        }
      } else {
        ds := WalkDirects(rest, env, w);
        assert [] + TopSpans(rest) == TopSpans(rest);
      }
    case Box(name, start, inner, kids, _, end, rest) =>
      var w0, below := Enter(name, start, inner, env, w), Below(name, env, w);
      AddedDirect(w, env, start, inner, false);
      var ks := WalkDirects(kids, below, w0);
      ds := WalkDirects(rest, env, Leave(name, Walk(kids, below, w0)));
      if name == PARA && env.direct {
        var e := Added(w, env, start, inner, false);
        NumberedCons(e, ds, Span(start, inner, end, false), TopSpans(rest), w.direct);
        ds := [e] + ds;
      } else {
        assert [] + TopSpans(rest) == TopSpans(rest);
        assert Directs(w0.located) == Directs(w.located) + [];
      }
  }

  lemma {:induction false} NumberedNone(from: nat)
    ensures Numbered([], [], from)
  {}

  // ----- the ends: first opened gets first closed -----

  lemma {:induction false} OpenOrderConcat(a: seq<Span>, b: seq<Span>)
    ensures OpenOrder(a + b) == OpenOrder(a) + OpenOrder(b)
    decreases |a|
  {
    if a == [] {
      assert a + b == b;
    } else {
      assert (a + b)[1..] == a[1..] + b;
      OpenOrderConcat(a[1..], b);
    }
  }

  lemma {:induction false} OpenOrderOf(s: Shape)
    ensures OpenOrder(Spans(s)) ==
            match s {
              case Nil => []
              case Solo(_, _, _, rest) => OpenOrder(Spans(rest))
              case Box(name, _, _, kids, _, end, rest) =>
                (if name == PARA then [end] else []) + OpenOrder(Spans(kids)) + OpenOrder(Spans(rest)) }
  {
    match s
    case Nil =>
    case Solo(name, start, end, rest) =>
      var own := if name == PARA then [Span(start, end, end, true)] else [];
      OpenOrderConcat(own, Spans(rest));
      if own != [] {
        assert own[1..] == [];
      }
    case Box(name, start, inner, kids, _, end, rest) =>
      var own := if name == PARA then [Span(start, inner, end, false)] else [];
      OpenOrderConcat(own + Spans(kids), Spans(rest));
      OpenOrderConcat(own, Spans(kids));
      if own != [] {
        assert own[1..] == [];
      }
  }

  /** Ends lie past the offset and within the bound. */
  ghost predicate Within(ends: seq<nat>, lo: nat, hi: nat) {
    forall i :: 0 <= i < |ends| ==> lo < ends[i] <= hi
  }

  lemma {:induction false} WithinConcat(a: seq<nat>, b: seq<nat>, lo: nat, mid: nat, mid': nat, hi: nat)
    requires lo <= mid' && mid <= hi && Within(a, lo, mid) && Within(b, mid', hi)
    ensures Within(a + b, lo, hi)
  {}

  lemma {:induction false} WithinFrom(ends: seq<nat>, lo: nat, lo': nat, hi: nat)
    requires lo <= lo' && Within(ends, lo', hi)
    ensures Within(ends, lo, hi)
  {}

  lemma {:induction false} WithinThree(a: seq<nat>, own: seq<nat>, b: seq<nat>, lo: nat, inner: nat, close: nat, end: nat, hi: nat)
    requires lo <= inner <= close < end <= hi && (own == [] || own == [end])
    requires Within(a, inner, close) && Within(b, end, hi)
    ensures Within(a + own + b, lo, hi) && Within(own + a + b, lo, hi)
  {
    WithinConcat(a, own, lo, end, lo, end);
    WithinConcat(a + own, b, lo, end, end, hi);
    WithinConcat(own, a, lo, end, lo, end);
    WithinConcat(own + a, b, lo, end, end, hi);
  }

  /** As many ends in one order as in the other, all of them within the bounds. */
  lemma {:induction false} Sizes(s: Shape, lo: nat, hi: nat)
    requires Ordered(s, lo, hi)
    ensures Within(CloseOrder(s), lo, hi) && Within(OpenOrder(Spans(s)), lo, hi)
    ensures |CloseOrder(s)| == |OpenOrder(Spans(s))|
    ensures HasOpenPara(s) <==> |CloseOrder(s)| > 0
    decreases s
  {
    hide Spans, OpenOrder, Within;
    OpenOrderOf(s);
    match s
    case Nil => WithinNone(lo, hi);
    case Solo(_, _, end, rest) =>
      Sizes(rest, end, hi);
      WithinFrom(CloseOrder(rest), lo, end, hi);
      WithinFrom(OpenOrder(Spans(rest)), lo, end, hi);
    case Box(name, start, inner, kids, close, end, rest) =>
      Sizes(kids, inner, close);
      Sizes(rest, end, hi);
      OrderedBounds(kids, inner, close);
      OrderedBounds(rest, end, hi);
      var own := if name == PARA then [end] else [];
      WithinThree(CloseOrder(kids), own, CloseOrder(rest), lo, inner, close, end, hi);
      WithinThree(OpenOrder(Spans(kids)), own, OpenOrder(Spans(rest)), lo, inner, close, end, hi);
  }

  lemma {:induction false} WithinNone(lo: nat, hi: nat)
    ensures Within([], lo, hi)
  {}

  lemma {:induction false} SplitEqual<T>(a: seq<T>, b: seq<T>, c: seq<T>, d: seq<T>)
    requires |a| == |c| && |b| == |d|
    ensures a + b == c + d <==> a == c && b == d
  {
    if a + b == c + d {
      assert a == (a + b)[..|a|] && b == (a + b)[|a|..];
      assert c == (c + d)[..|c|] && d == (c + d)[|c|..];
    }
  }

  /** The paragraphs opened before a `body` closes have their closing tags among all of them. */
  lemma {:induction false} UntilFewer(s: Shape)
    ensures |OpenOrder(Spans(Until(s)))| <= |CloseOrder(s)|
    ensures HasOpenPara(Until(s)) <==> |OpenOrder(Spans(Until(s)))| > 0
    decreases s
  {
    hide Spans, OpenOrder;
    OpenOrderOf(Until(s));
    match s
    case Nil =>
    case Solo(_, _, _, rest) => UntilFewer(rest);
    case Box(_, _, _, kids, _, _, rest) =>
      UntilFewer(kids);
      UntilFewer(rest);
      OpenOrderOf(Nil);
  }

  /** `a` is where `b` begins. */
  predicate Begins(a: seq<nat>, b: seq<nat>) {
    |a| <= |b| && a == b[..|a|]
  }

  lemma {:induction false} BeginsBoth(a: seq<nat>, c: seq<nat>, b: seq<nat>, d: seq<nat>)
    requires |a| == |c| && |b| <= |d|
    ensures Begins(a + b, c + d) <==> a == c && Begins(b, d)
  {
    assert (c + d)[..|a + b|] == c + d[..|b|];
    SplitEqual(a, b, c, d[..|b|]);
  }

  lemma {:induction false} BeginsLonger(a: seq<nat>, c: seq<nat>, d: seq<nat>)
    requires |a| <= |c|
    ensures Begins(a, c + d) <==> Begins(a, c)
  {
    assert (c + d)[..|a|] == c[..|a|];
  }

  lemma {:induction false} BeginsNot(a: seq<nat>, b: seq<nat>)
    requires a != [] && b != [] && a[0] != b[0]
    ensures !Begins(a, b)
  {}

  /**
   Of the paragraphs opened before a `body` closes, the ends in opening order are the first ends in closing order if and
   only if no `p` with a closing tag stands inside one of them.
   */
  lemma {:induction false} OrdersAgree(s: Shape, lo: nat, hi: nat)
    requires Ordered(s, lo, hi)
    ensures Begins(OpenOrder(Spans(Until(s))), CloseOrder(s)) <==> Flat(s)
    decreases s
  {
    hide Spans, OpenOrder, Begins, HasOpenPara, Ordered;
    OpenOrderOf(Until(s));
    UntilFewer(s);
    OrderedParts(s, lo, hi);
    match s
    case Nil => BeginsNone([]);
    case Solo(_, _, end, rest) => OrdersAgree(rest, end, hi);
    case Box(name, start, inner, kids, close, end, rest) =>
      OrdersAgree(kids, inner, close);
      OrdersAgree(rest, end, hi);
      OrdersAgreeBox(s, lo, hi);
  }

  lemma {:induction false} OrderedParts(s: Shape, lo: nat, hi: nat)
    requires Ordered(s, lo, hi)
    ensures s.Solo? ==> Ordered(s.rest, s.end, hi)
    ensures s.Box? ==> Ordered(s.kids, s.inner, s.close) && s.close < s.end && Ordered(s.rest, s.end, hi)
  {}

  lemma {:induction false} BeginsNone(b: seq<nat>)
    ensures Begins([], b)
  {}

  lemma {:induction false} OrdersAgreeBox(s: Shape, lo: nat, hi: nat)
    requires s.Box? && Ordered(s, lo, hi)
    requires Begins(OpenOrder(Spans(Until(s.kids))), CloseOrder(s.kids)) <==> Flat(s.kids)
    requires Begins(OpenOrder(Spans(Until(s.rest))), CloseOrder(s.rest)) <==> Flat(s.rest)
    ensures Begins(OpenOrder(Spans(Until(s))), CloseOrder(s)) <==> Flat(s)
  {
    hide Spans, OpenOrder, Begins, HasOpenPara, Within, CloseOrder, Flat, Until, Cuts, Ordered;
    var cut := s.name == BODY || Cuts(s.kids);
    var ok, ck := OpenOrder(Spans(Until(s.kids))), CloseOrder(s.kids);
    var or, cr := if cut then [] else OpenOrder(Spans(Until(s.rest))), CloseOrder(s.rest);
    BoxOrders(s);
    UntilFewer(s.kids);
    UntilFewer(s.rest);
    BeginsNone(cr);
    OrderedParts(s, lo, hi);
    Sizes(s.kids, s.inner, s.close);
    if s.name == PARA {
      ParaOrders(s.end, ok, ck, or, cr, s.inner, s.close);
    } else {
      assert [] + ok + or == ok + or && ck + [] + cr == ck + cr;
      if cut {
        assert ok + [] == ok;
        BeginsLonger(ok, ck, cr);
      } else {
        UntilAll(s.kids);
        BeginsBoth(ok, ck, or, cr);
        BeginsAll(ok, ck);
      }
    }
  }

  /** The two orders of an element and what follows, and what being flat asks of them. */
  lemma {:induction false} BoxOrders(s: Shape)
    requires s.Box?
    ensures var cut := s.name == BODY || Cuts(s.kids);
            var own := if s.name == PARA then [s.end] else [];
            && OpenOrder(Spans(Until(s))) == own + OpenOrder(Spans(Until(s.kids))) + (if cut then [] else OpenOrder(Spans(Until(s.rest))))
            && CloseOrder(s) == CloseOrder(s.kids) + own + CloseOrder(s.rest)
            && (Flat(s) <==> (s.name == PARA ==> !HasOpenPara(s.kids)) && Flat(s.kids) && (cut || Flat(s.rest)))
  {
    hide Spans, OpenOrder, HasOpenPara;
    OpenOrderOf(Until(s));
    OpenOrderOf(Nil);
  }

  /** A `p` of its own: its end comes first in one order and after its content's ends in the other. */
  lemma {:induction false} ParaOrders(end: nat, ok: seq<nat>, ck: seq<nat>, or: seq<nat>, cr: seq<nat>, inner: nat, close: nat)
    requires |ok| <= |ck| && |or| <= |cr| && Within(ck, inner, close) && close < end
    ensures Begins([end] + ok + or, ck + [end] + cr) <==> ck == [] && Begins(or, cr)
    ensures ck == [] ==> Begins(ok, ck)
  {
    hide Begins, Within;
    if ck == [] {
      assert ok == [] && [end] + ok + or == [end] + or && ck + [end] + cr == [end] + cr;
      BeginsBoth([end], [end], or, cr);
      BeginsNone(ck);
    } else {
      FirstBelow(ck, inner, close);
      BeginsNot([end] + ok + or, ck + [end] + cr);
    }
  }

  lemma {:induction false} FirstBelow(ends: seq<nat>, lo: nat, hi: nat)
    requires ends != [] && Within(ends, lo, hi)
    ensures ends[0] <= hi
  {}

  lemma {:induction false} BeginsAll(a: seq<nat>, b: seq<nat>)
    requires |a| == |b|
    ensures Begins(a, b) <==> a == b
  {
    assert b[..|b|] == b;
  }
}
