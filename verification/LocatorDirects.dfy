/** When the direct entries of the locator are the `p` children of `body` in the tree, and inputs where they are not. */
module LocatorDirects {
  import opened Sequences
  import opened Scanner
  import opened Markup
  import opened Locator
  import opened LocatorTrees
  import opened LocatorResults
  import opened Locating
  import opened LocatorTables

  /** The content of the first `body` in document order, and its offset. */
  function BodyOf(f: Forest, off: nat): Option<(Forest, nat)> {
    match f
    case Done => None
    case LeafNode(l, rest) => BodyOf(rest, LeafEnd(l, off))
    case Empty(h, rest) =>
      if h.name.local == BODY then Some((Done, EmptyEnd(h, off))) else BodyOf(rest, EmptyEnd(h, off))
    case Elem(h, kids, tail, rest) =>
      if h.name.local == BODY then Some((kids, InnerAt(h, off)))
      else
        var b := BodyOf(kids, InnerAt(h, off));
        if b.Some? then b else BodyOf(rest, EndAt(h, kids, tail, off))
  }

  /** The tree holds a `body`. */
  predicate HasBodyIn(f: Forest) {
    match f
    case Done => false
    case LeafNode(_, rest) => HasBodyIn(rest)
    case Empty(h, rest) => h.name.local == BODY || HasBodyIn(rest)
    case Elem(h, kids, _, rest) => h.name.local == BODY || HasBodyIn(kids) || HasBodyIn(rest)
  }

  /** The first `body` has an ASCII name and is not self-closing. */
  predicate ProperBody(f: Forest) {
    match f
    case Done => false
    case LeafNode(_, rest) => ProperBody(rest)
    case Empty(h, rest) => h.name.local != BODY && ProperBody(rest)
    case Elem(h, kids, _, rest) =>
      if h.name.local == BODY then Seen(h) else if HasBodyIn(kids) then ProperBody(kids) else ProperBody(rest)
  }

  /** A `body` with an ASCII name and both tags stands in here, at any depth. */
  predicate CutsIn(f: Forest) {
    match f
    case Done => false
    case LeafNode(_, rest) => CutsIn(rest)
    case Empty(_, rest) => CutsIn(rest)
    case Elem(h, kids, _, rest) => (Seen(h) && h.name.local == BODY) || CutsIn(kids) || CutsIn(rest)
  }

  /** Some `p` with an ASCII name would be taken for a child here: no element with an ASCII name stands around it. */
  predicate ShowsPara(f: Forest) {
    match f
    case Done => false
    case LeafNode(_, rest) => ShowsPara(rest)
    case Empty(h, rest) => (Seen(h) && h.name.local == PARA) || ShowsPara(rest)
    case Elem(h, kids, _, rest) =>
      if Seen(h) then h.name.local == PARA || (h.name.local != BODY && !CutsIn(kids) && ShowsPara(rest))
      else ShowsPara(kids) || (!CutsIn(kids) && ShowsPara(rest))
  }

  predicate HasParaChild(f: Forest) {
    match f
    case Done => false
    case LeafNode(_, rest) => HasParaChild(rest)
    case Empty(h, rest) => h.name.local == PARA || HasParaChild(rest)
    case Elem(h, _, _, rest) => h.name.local == PARA || HasParaChild(rest)
  }

  /**
   The caller's test on the content of `body`: every `p` child has an ASCII name; no `p` shows through elements whose
   names are not ASCII; and no `p` child follows a child that is or holds a further `body`.
   */
  predicate RightChildren(f: Forest) {
    match f
    case Done => true
    case LeafNode(_, rest) => RightChildren(rest)
    case Empty(h, rest) => (h.name.local == PARA ==> Seen(h)) && RightChildren(rest)
    case Elem(h, kids, _, rest) =>
      && (!Seen(h) ==> h.name.local != PARA && !ShowsPara(kids))
      && (if (Seen(h) && h.name.local == BODY) || CutsIn(kids) then !HasParaChild(rest) else RightChildren(rest))
  }

  // ----- the tree and what is seen of it -----

  lemma {:induction false} CutsAppend(a: Shape, b: Shape)
    ensures Cuts(Append(a, b)) <==> Cuts(a) || Cuts(b)
    ensures Until(Append(a, b)) == if Cuts(a) then Until(a) else Append(Until(a), Until(b))
  {
    match a
    case Nil =>
    case Solo(_, _, _, rest) => CutsAppend(rest, b);
    case Box(_, _, _, _, _, _, rest) => CutsAppend(rest, b);
  }

  lemma {:induction false} CutsOfSeen(f: Forest, off: nat)
    ensures Cuts(SeenIn(f, off)) <==> CutsIn(f)
    decreases f
  {
    hide PrintOpen, PrintEmpty, PrintClose, PrintLeaf, PrintName, Print, Seen;
    match f
    case Done =>
    case LeafNode(l, rest) => CutsOfSeen(rest, LeafEnd(l, off));
    case Empty(h, rest) => CutsOfSeen(rest, EmptyEnd(h, off));
    case Elem(h, kids, tail, rest) =>
      CutsOfSeen(kids, InnerAt(h, off));
      CutsOfSeen(rest, EndAt(h, kids, tail, off));
      CutsAppend(SeenIn(kids, InnerAt(h, off)), SeenIn(rest, EndAt(h, kids, tail, off)));
  }

  lemma {:induction false} TopAppend(a: Shape, b: Shape)
    ensures TopSpans(Append(a, b)) == TopSpans(a) + TopSpans(b)
  {
    match a
    case Nil =>
    case Solo(name, start, end, rest) =>
      TopAppend(rest, b);
      RegroupSpans(if name == PARA then [Span(start, end, end, true)] else [], TopSpans(rest), TopSpans(b));
    case Box(name, start, inner, _, _, end, rest) =>
      TopAppend(rest, b);
      RegroupSpans(if name == PARA then [Span(start, inner, end, false)] else [], TopSpans(rest), TopSpans(b));
  }

  /** Spans start from `lo` on and before `hi`. */
  ghost predicate StartIn(spans: seq<Span>, lo: nat, hi: nat) {
    forall i :: 0 <= i < |spans| ==> lo <= spans[i].start < hi
  }

  lemma {:induction false} StartConcat(a: seq<Span>, b: seq<Span>, lo: nat, hi: nat)
    requires StartIn(a, lo, hi) && StartIn(b, lo, hi)
    ensures StartIn(a + b, lo, hi)
  {}

  lemma {:induction false} StartWider(a: seq<Span>, lo: nat, lo': nat, hi': nat, hi: nat)
    requires StartIn(a, lo', hi') && lo <= lo' && hi' <= hi
    ensures StartIn(a, lo, hi)
  {}

  lemma {:induction false} TopStarts(s: Shape, lo: nat, hi: nat)
    requires Ordered(s, lo, hi)
    ensures StartIn(TopSpans(s), lo, hi)
    decreases s
  {
    hide StartIn;
    match s
    case Nil => NoStart(lo, hi);
    case Solo(name, start, end, rest) =>
      TopStarts(rest, end, hi);
      OrderedBounds(rest, end, hi);
      StartWider(TopSpans(rest), lo, end, hi, hi);
      OneStart(Span(start, end, end, true), lo, hi);
      NoStart(lo, hi);
      StartConcat(if name == PARA then [Span(start, end, end, true)] else [], TopSpans(rest), lo, hi);
    case Box(name, start, inner, kids, close, end, rest) =>
      TopStarts(rest, end, hi);
      OrderedBounds(rest, end, hi);
      OrderedBounds(kids, inner, close);
      StartWider(TopSpans(rest), lo, end, hi, hi);
      OneStart(Span(start, inner, end, false), lo, hi);
      NoStart(lo, hi);
      StartConcat(if name == PARA then [Span(start, inner, end, false)] else [], TopSpans(rest), lo, hi);
  }

  lemma {:induction false} NoStart(lo: nat, hi: nat)
    ensures StartIn([], lo, hi)
  {}

  lemma {:induction false} OneStart(s: Span, lo: nat, hi: nat)
    requires lo <= s.start < hi
    ensures StartIn([s], lo, hi)
  {}

  lemma {:induction false} ChildrenStart(f: Forest, off: nat)
    ensures StartIn(ParaChildren(f, off), off, off + |Print(f)|)
    ensures HasParaChild(f) <==> ParaChildren(f, off) != []
    decreases f
  {
    hide StartIn, PrintOpen, PrintEmpty, PrintClose, PrintName;
    match f
    case Done => NoStart(off, off);
    case LeafNode(l, rest) =>
      ChildrenStart(rest, LeafEnd(l, off));
      StartWider(ParaChildren(rest, LeafEnd(l, off)), off, LeafEnd(l, off), off + |Print(f)|, off + |Print(f)|);
    case Empty(h, rest) =>
      var end := EmptyEnd(h, off);
      var hi := off + |Print(f)|;
      EmptySize(h, rest, off);
      ChildrenStart(rest, end);
      StartWider(ParaChildren(rest, end), off, end, hi, hi);
      OneStart(Span(off, end, end, true), off, hi);
      NoStart(off, hi);
      StartConcat(if h.name.local == PARA then [Span(off, end, end, true)] else [], ParaChildren(rest, end), off, hi);
    case Elem(h, kids, tail, rest) =>
      var inner, end := InnerAt(h, off), EndAt(h, kids, tail, off);
      var hi := off + |Print(f)|;
      ElemSize(h, kids, tail, rest, off);
      ChildrenStart(rest, end);
      StartWider(ParaChildren(rest, end), off, end, hi, hi);
      OneStart(Span(off, inner, end, false), off, hi);
      NoStart(off, hi);
      StartConcat(if h.name.local == PARA then [Span(off, inner, end, false)] else [], ParaChildren(rest, end), off, hi);
  }

  /** The same elements, as far as where they start tells. */
  ghost predicate SameStarts(a: seq<Span>, b: seq<Span>) {
    |a| == |b| && forall i :: 0 <= i < |a| ==> a[i].start == b[i].start
  }

  lemma {:induction false} StartsCons(x: Span, y: Span, a: seq<Span>, b: seq<Span>)
    ensures SameStarts([x] + a, [y] + b) <==> x.start == y.start && SameStarts(a, b)
  {
    var p, q := [x] + a, [y] + b;
    if SameStarts(p, q) {
      assert p[0].start == q[0].start;
      forall i | 0 <= i < |a| ensures a[i].start == b[i].start {
        assert p[i + 1] == a[i] && q[i + 1] == b[i];
      }
    }
  }

  /** What shows among the seen children up to the first closing tag of a `body`. */
  lemma {:induction false} ShowsMeans(f: Forest, off: nat)
    ensures ShowsPara(f) <==> TopSpans(Until(SeenIn(f, off))) != []
    decreases f
  {
    hide PrintOpen, PrintEmpty, PrintClose, PrintLeaf, PrintName, Print, Seen;
    match f
    case Done =>
    case LeafNode(l, rest) => ShowsMeans(rest, LeafEnd(l, off));
    case Empty(h, rest) => ShowsMeans(rest, EmptyEnd(h, off));
    case Elem(h, kids, tail, rest) =>
      var a, b := SeenIn(kids, InnerAt(h, off)), SeenIn(rest, EndAt(h, kids, tail, off));
      ShowsMeans(kids, InnerAt(h, off));
      ShowsMeans(rest, EndAt(h, kids, tail, off));
      CutsOfSeen(kids, InnerAt(h, off));
      CutsAppend(a, b);
      TopAppend(Until(a), Until(b));
  }

  /** The direct entries are at the `p` children exactly when the test says so. */
  lemma {:induction false} ChildrenMatch(f: Forest, off: nat)
    ensures SameStarts(TopSpans(Until(SeenIn(f, off))), ParaChildren(f, off)) <==> RightChildren(f)
    ensures RightChildren(f) ==> TopSpans(Until(SeenIn(f, off))) == ParaChildren(f, off)
    decreases f, 1
  {
    hide PrintOpen, PrintEmpty, PrintClose, PrintLeaf, PrintName, Print, Seen, SameStarts;
    match f
    case Done => NoneSame();
    case LeafNode(l, rest) => ChildrenMatch(rest, LeafEnd(l, off));
    case Empty(h, rest) =>
      var end := EmptyEnd(h, off);
      ChildrenMatch(rest, end);
      EmptyMatch(h, rest, off);
    case Elem(h, kids, tail, rest) =>
      ChildrenMatch(rest, EndAt(h, kids, tail, off));
      ElemMatch(f, off);
  }

  lemma {:induction false} NoneSame()
    ensures SameStarts([], [])
  {}

  lemma {:induction false} EmptyMatch(h: TagHead, rest: Forest, off: nat)
    requires var end := EmptyEnd(h, off);
             && (SameStarts(TopSpans(Until(SeenIn(rest, end))), ParaChildren(rest, end)) <==> RightChildren(rest))
             && (RightChildren(rest) ==> TopSpans(Until(SeenIn(rest, end))) == ParaChildren(rest, end))
    ensures var f := Empty(h, rest);
            && (SameStarts(TopSpans(Until(SeenIn(f, off))), ParaChildren(f, off)) <==> RightChildren(f))
            && (RightChildren(f) ==> TopSpans(Until(SeenIn(f, off))) == ParaChildren(f, off))
  {
    hide PrintOpen, PrintEmpty, PrintClose, PrintLeaf, PrintName, Print, Seen, SameStarts, StartIn;
    var end := EmptyEnd(h, off);
    var s, own := SeenIn(rest, end), Span(off, end, end, true);
    if h.name.local == PARA {
      StartsCons(own, own, TopSpans(Until(s)), ParaChildren(rest, end));
      if !Seen(h) {
        var hi := end + |Print(rest)|;
        EmptySize(h, rest, off);
        SeenOrdered(rest, end);
        UntilOrdered(s, end, hi);
        TopStarts(Until(s), end, hi);
        FirstDiffers(own, TopSpans(Until(s)), ParaChildren(rest, end), end, hi);
      }
    } else {
      assert [] + TopSpans(Until(s)) == TopSpans(Until(s)) && [] + ParaChildren(rest, end) == ParaChildren(rest, end);
    }
  }

  /** A list of later starts is not one that begins with `own`. */
  lemma {:induction false} FirstDiffers(own: Span, a: seq<Span>, b: seq<Span>, lo: nat, hi: nat)
    requires own.start < lo && StartIn(a, lo, hi)
    ensures !SameStarts(a, [own] + b)
  {
    if a != [] {
      assert a[0].start > own.start == ([own] + b)[0].start;
    }
  }

  lemma {:induction false} ElemMatch(f: Forest, off: nat)
    requires f.Elem?
    requires var end := EndAt(f.head, f.kids, f.closeTail, off);
             && (SameStarts(TopSpans(Until(SeenIn(f.rest, end))), ParaChildren(f.rest, end)) <==> RightChildren(f.rest))
             && (RightChildren(f.rest) ==> TopSpans(Until(SeenIn(f.rest, end))) == ParaChildren(f.rest, end))
    ensures SameStarts(TopSpans(Until(SeenIn(f, off))), ParaChildren(f, off)) <==> RightChildren(f)
    ensures RightChildren(f) ==> TopSpans(Until(SeenIn(f, off))) == ParaChildren(f, off)
  {
    hide PrintOpen, PrintEmpty, PrintClose, PrintLeaf, PrintName, Print, Seen, SameStarts, StartIn, Ordered;
    var h, kids, rest := f.head, f.kids, f.rest;
    var inner, close, end := InnerAt(h, off), CloseAt(h, kids, off), EndAt(h, kids, f.closeTail, off);
    var a, b := SeenIn(kids, inner), SeenIn(rest, end);
    var hi := end + |Print(rest)|;
    var seen, later := if CutsIn(kids) || (Seen(h) && h.name.local == BODY) then [] else TopSpans(Until(b)), ParaChildren(rest, end);
    ElemSize(h, kids, f.closeTail, rest, off);
    CutsOfSeen(kids, inner);
    CutsAppend(a, b);
    ChildrenStart(rest, end);
    NoneSame();
    if Seen(h) {
      var own := Span(off, inner, end, false);
      StartsCons(own, own, seen, later);
      assert [] + seen == seen && [] + later == later;
      EmptyOnly(seen, later);
    } else {
      ShowsMeans(kids, inner);
      TopAppend(Until(a), Until(b));
      SeenOrdered(kids, inner);
      UntilOrdered(a, inner, close);
      TopStarts(Until(a), inner, close);
      SeenOrdered(rest, end);
      UntilOrdered(b, end, hi);
      TopStarts(Until(b), end, hi);
      assert TopSpans(Until(a)) + [] == TopSpans(Until(a));
      UnseenMatch(TopSpans(Until(a)), seen, later, Span(off, inner, end, false), h.name.local == PARA, close, end, hi);
      EmptyOnly(seen, later);
      NoStart(end, hi);
    }
  }

  lemma {:induction false} EmptyOnly(a: seq<Span>, b: seq<Span>)
    ensures a == [] ==> (SameStarts(a, b) <==> b == [])
  {}

  /** An unseen element: its own `p` is missed, and what shows through it is taken for children. */
  lemma {:induction false} UnseenMatch(shown: seq<Span>, seen: seq<Span>, later: seq<Span>, own: Span, isPara: bool,
                                       close: nat, end: nat, hi: nat)
    requires own.start < own.openEnd <= close < end <= hi
    requires StartIn(shown, own.openEnd, close) && StartIn(later, end, hi) && (seen == [] || StartIn(seen, end, hi))
    ensures SameStarts(shown + seen, (if isPara then [own] else []) + later) <==> !isPara && shown == [] && SameStarts(seen, later)
  {
    var a, b := shown + seen, (if isPara then [own] else []) + later;
    if shown == [] {
      assert a == seen;
    } else {
      assert a[0] == shown[0] && own.start < a[0].start < end;
    }
    if isPara {
      assert b[0] == own;
    } else {
      assert b == later;
    }
  }

  // ----- the first body -----

  lemma {:induction false} RegionAppend(a: Shape, b: Shape)
    ensures !HasBody(a) ==> BodyRegion(Append(a, b)) == BodyRegion(b) && FirstBody(Append(a, b)) == FirstBody(b)
    ensures HasBody(a) ==> HasBody(Append(a, b)) && FirstBody(Append(a, b)) == FirstBody(a)
  {
    match a
    case Nil =>
    case Solo(_, _, _, rest) => RegionAppend(rest, b);
    case Box(_, _, _, _, _, _, rest) => RegionAppend(rest, b);
  }

  lemma {:induction false} NoBodySeen(f: Forest, off: nat)
    requires !HasBodyIn(f)
    ensures !HasBody(SeenIn(f, off)) && BodyOf(f, off).None?
    decreases f
  {
    hide PrintOpen, PrintEmpty, PrintClose, PrintLeaf, PrintName, Print, Seen;
    match f
    case Done =>
    case LeafNode(l, rest) => NoBodySeen(rest, LeafEnd(l, off));
    case Empty(h, rest) => NoBodySeen(rest, EmptyEnd(h, off));
    case Elem(h, kids, tail, rest) =>
      NoBodySeen(kids, InnerAt(h, off));
      NoBodySeen(rest, EndAt(h, kids, tail, off));
      RegionAppend(SeenIn(kids, InnerAt(h, off)), SeenIn(rest, EndAt(h, kids, tail, off)));
  }

  /** A proper first `body` of the tree is the first one that is seen. */
  lemma {:induction false} BodySeen(f: Forest, off: nat)
    requires ProperBody(f)
    ensures BodyOf(f, off).Some?
    ensures HasBodyIn(f) && HasBody(SeenIn(f, off))
    ensures FirstBody(SeenIn(f, off)) == Some(SeenIn(BodyOf(f, off).value.0, BodyOf(f, off).value.1))
    decreases f
  {
    hide PrintOpen, PrintEmpty, PrintClose, PrintLeaf, PrintName, Print, Seen;
    match f
    case LeafNode(l, rest) => BodySeen(rest, LeafEnd(l, off));
    case Empty(h, rest) => BodySeen(rest, EmptyEnd(h, off));
    case Elem(h, kids, tail, rest) =>
      var a, b := SeenIn(kids, InnerAt(h, off)), SeenIn(rest, EndAt(h, kids, tail, off));
      if h.name.local != BODY {
        if HasBodyIn(kids) {
          BodySeen(kids, InnerAt(h, off));
        } else {
          NoBodySeen(kids, InnerAt(h, off));
          BodySeen(rest, EndAt(h, kids, tail, off));
        }
        RegionAppend(a, b);
      }
  }

  /**
   For every well-formed document whose first `body` has an ASCII name and is not self-closing: the direct entries are
   `P0`, `P1`, ... at exactly the `p` children of that `body` in the tree if and only if the test on its content holds.
   */
  lemma {:induction false} DirectsAreChildren(f: Forest)
    requires WellFormed(f) && ProperBody(f)
    ensures BodyOf(f, 0).Some?
    ensures var (kids, at) := BodyOf(f, 0).value;
            var located := Locate(Scan(Print(f), 0));
            && located.Some?
            && (Numbered(Directs(located.value), ParaChildren(kids, at), 0) <==> RightChildren(kids))
            && (RightChildren(kids) ==> TopSpans(Part(SeenIn(f, 0))) == ParaChildren(kids, at))
  {
    hide Scan, Locate, Print, Directs, Numbered, WellFormed, ProperBody, BodyOf, SeenIn, TopSpans, Until, ParaChildren, Placed,
         EndsRight, EndsCanBeRight, Spans, FirstBody, BodyRegion, RightChildren, SameStarts;
    LocateDocument(f);
    BodySeen(f, 0);
    var (kids, at) := BodyOf(f, 0).value;
    RegionOfBody(SeenIn(f, 0));
    ChildrenMatch(kids, at);
    OneNumbering(Directs(Locate(Scan(Print(f), 0)).value), TopSpans(Part(SeenIn(f, 0))), ParaChildren(kids, at));
  }

  lemma {:induction false} OneNumbering(es: seq<Entry>, a: seq<Span>, b: seq<Span>)
    requires Numbered(es, a, 0)
    ensures a == b ==> Numbered(es, b, 0)
    ensures Numbered(es, b, 0) ==> SameStarts(a, b)
  {}

  // ----- a first body that is self-closing -----

  /** The first `body` is self-closing and has an ASCII name. */
  predicate SoloBody(f: Forest) {
    match f
    case Done => false
    case LeafNode(_, rest) => SoloBody(rest)
    case Empty(h, rest) => if h.name.local == BODY then Seen(h) else SoloBody(rest)
    case Elem(h, kids, _, rest) => h.name.local != BODY && (if HasBodyIn(kids) then SoloBody(kids) else SoloBody(rest))
  }

  /** A `body` with an ASCII name closes behind the first one, in its siblings or around them. */
  predicate CutsAfterBody(f: Forest) {
    match f
    case Done => false
    case LeafNode(_, rest) => CutsAfterBody(rest)
    case Empty(h, rest) => if h.name.local == BODY then CutsIn(rest) else CutsAfterBody(rest)
    case Elem(h, kids, _, rest) => if HasBodyIn(kids) then CutsAfterBody(kids) || CutsIn(rest) else CutsAfterBody(rest)
  }

  /** Before that, some `p` would be taken for a child of the first `body`. */
  predicate ShowsAfterBody(f: Forest) {
    match f
    case Done => false
    case LeafNode(_, rest) => ShowsAfterBody(rest)
    case Empty(h, rest) => if h.name.local == BODY then ShowsPara(rest) else ShowsAfterBody(rest)
    case Elem(h, kids, _, rest) =>
      if HasBodyIn(kids) then ShowsAfterBody(kids) || (!CutsAfterBody(kids) && ShowsPara(rest)) else ShowsAfterBody(rest)
  }

  lemma {:induction false} AppendAssoc(a: Shape, b: Shape, c: Shape)
    ensures Append(Append(a, b), c) == Append(a, Append(b, c))
  {
    match a
    case Nil =>
    case Solo(_, _, _, rest) => AppendAssoc(rest, b, c);
    case Box(_, _, _, _, _, _, rest) => AppendAssoc(rest, b, c);
  }

  /** What follows an element counts unless a `body` has closed. */
  function Further(r: Region, b: Shape): Region {
    if r.closed then r else Region(Append(r.part, Until(b)), Cuts(b))
  }

  lemma {:induction false} RegionFurther(a: Shape, b: Shape)
    requires HasBody(a)
    ensures BodyRegion(Append(a, b)) == Some(Further(BodyRegion(a).value, b))
  {
    match a
    case Solo(name, _, _, rest) =>
      CutsAppend(rest, b);
      if name != BODY {
        RegionFurther(rest, b);
      }
    case Box(name, _, _, kids, _, _, rest) =>
      CutsAppend(rest, b);
      if name != BODY {
        if HasBody(kids) {
          AppendAssoc(BodyRegion(kids).value.part, Until(rest), Until(b));
        } else {
          RegionFurther(rest, b);
        }
      }
  }

  /** What the pass finds behind such a `body`. */
  ghost predicate FindsAfter(f: Forest, off: nat) {
    var s := SeenIn(f, off);
    && HasBodyIn(f) && BodyOf(f, off).Some? && BodyOf(f, off).value.0 == Done && HasBody(s)
    && (BodyRegion(s).value.closed <==> CutsAfterBody(f))
    && (TopSpans(BodyRegion(s).value.part) != [] <==> ShowsAfterBody(f))
  }

  lemma {:induction false} SoloRegion(f: Forest, off: nat)
    requires SoloBody(f)
    ensures FindsAfter(f, off)
    decreases f
  {
    hide PrintOpen, PrintEmpty, PrintClose, PrintLeaf, PrintName, Print, Seen, Cuts, Until, TopSpans, CutsIn, ShowsPara;
    match f
    case LeafNode(l, rest) => SoloRegion(rest, LeafEnd(l, off));
    case Empty(h, rest) =>
      var end := EmptyEnd(h, off);
      if h.name.local == BODY {
        CutsOfSeen(rest, end);
        ShowsMeans(rest, end);
      } else {
        SoloRegion(rest, end);
      }
    case Elem(h, kids, tail, rest) =>
      var a, b := SeenIn(kids, InnerAt(h, off)), SeenIn(rest, EndAt(h, kids, tail, off));
      if HasBodyIn(kids) {
        SoloRegion(kids, InnerAt(h, off));
        RegionFurther(a, b);
        CutsOfSeen(rest, EndAt(h, kids, tail, off));
        ShowsMeans(rest, EndAt(h, kids, tail, off));
        TopAppend(BodyRegion(a).value.part, Until(b));
      } else {
        NoBodySeen(kids, InnerAt(h, off));
        SoloRegion(rest, EndAt(h, kids, tail, off));
        RegionAppend(a, b);
      }
  }

  /**
   The other half: when the first `body` is self-closing it has no children, and the direct entries say so if and only
   if no `p` shows behind it before a `body` closes.
   */
  lemma {:induction false} DirectsAfterEmptyBody(f: Forest)
    requires WellFormed(f) && SoloBody(f)
    ensures BodyOf(f, 0).Some? && BodyOf(f, 0).value.0 == Done
    ensures var located := Locate(Scan(Print(f), 0));
            && located.Some?
            && (Numbered(Directs(located.value), ParaChildren(Done, BodyOf(f, 0).value.1), 0) <==> !ShowsAfterBody(f))
  {
    hide Scan, Locate, Print, Directs, Numbered, WellFormed, SoloBody, SeenIn, TopSpans, Placed, EndsRight, EndsCanBeRight, Spans,
         BodyRegion, ShowsAfterBody, CutsAfterBody, BodyOf;
    LocateDocument(f);
    SoloRegion(f, 0);
    NumberedEmpty(Directs(Locate(Scan(Print(f), 0)).value), TopSpans(Part(SeenIn(f, 0))));
  }

  lemma {:induction false} NumberedEmpty(es: seq<Entry>, spans: seq<Span>)
    requires Numbered(es, spans, 0)
    ensures Numbered(es, [], 0) <==> spans == []
  {}

  // ----- concrete failures -----

  /** A name of one letter outside ASCII. */
  const ACCENTED: seq<byte> := [195, 169]

  /** `<p/>` */
  const LONE_PARA: Forest := Empty(Bare(PARA), Done)

  /** One direct entry, at a `p` that is no child of `body`: `<body><x><p/></x></body>` with `x` outside ASCII. */
  lemma {:induction false} HiddenElementFails()
    ensures var f := Node(BODY, Node(ACCENTED, LONE_PARA, Done), Done);
            var located := Locate(Scan(Print(f), 0));
            && WellFormed(f) && ProperBody(f) && located.Some? && |Directs(located.value)| == 1
            && ParaChildren(BodyOf(f, 0).value.0, BodyOf(f, 0).value.1) == []
  {
    hide Scan, Locate, Print, Directs, Numbered, InnerAt, CloseAt, EndAt, EmptyEnd, Placed, EndsRight, EndsCanBeRight, Spans;
    NamesSeen();
    var hidden := Node(ACCENTED, LONE_PARA, Done);
    var f := Node(BODY, hidden, Done);
    assert WellFormed(Done) && WellFormed(LONE_PARA) && WellFormed(hidden);
    LocateDocument(f);
    BodySeen(f, 0);
    RegionOfBody(SeenIn(f, 0));
    var (kids, at) := BodyOf(f, 0).value;
    var shown := SeenIn(LONE_PARA, InnerAt(Bare(ACCENTED), at));
    assert SeenIn(Done, EmptyEnd(Bare(PARA), InnerAt(Bare(ACCENTED), at))) == Nil;
    assert shown.Solo? && shown.name == PARA && shown.rest == Nil;
    assert SeenIn(kids, at) == Append(shown, Nil) == shown;
    assert Until(shown) == shown && |TopSpans(shown)| == 1;
    NumberedSize(Directs(Locate(Scan(Print(f), 0)).value), TopSpans(shown), 0);
  }

  lemma {:induction false} NumberedSize(es: seq<Entry>, spans: seq<Span>, from: nat)
    requires Numbered(es, spans, from)
    ensures |es| == |spans|
  {}

  lemma {:induction false} NamesSeen()
    ensures Seen(Bare(BODY)) && Seen(Bare(PARA)) && !Seen(Bare(ACCENTED))
  {
    assert PrintName(Bare(ACCENTED).name)[0] == 195;
  }

  /** A `p` child of `body` that is not located: `<body><body></body><p/></body>`. */
  lemma {:induction false} NestedBodyFails()
    ensures var f := Node(BODY, Node(BODY, Done, LONE_PARA), Done);
            var located := Locate(Scan(Print(f), 0));
            && WellFormed(f) && ProperBody(f) && located.Some? && Directs(located.value) == []
            && |ParaChildren(BodyOf(f, 0).value.0, BodyOf(f, 0).value.1)| == 1
  {
    hide Scan, Locate, Print, Directs, Numbered, InnerAt, CloseAt, EndAt, EmptyEnd, Placed, EndsRight, EndsCanBeRight, Spans;
    NamesSeen();
    var nested := Node(BODY, Done, LONE_PARA);
    var f := Node(BODY, nested, Done);
    assert WellFormed(Done) && WellFormed(LONE_PARA) && WellFormed(nested);
    LocateDocument(f);
    BodySeen(f, 0);
    RegionOfBody(SeenIn(f, 0));
    var (kids, at) := BodyOf(f, 0).value;
    var s := SeenIn(kids, at);
    assert SeenIn(Done, InnerAt(Bare(BODY), at)) == Nil;
    assert s.Box? && s.name == BODY && s.kids == Nil;
    assert TopSpans(Nil) == [] && TopSpans(Until(s)) == [];
    NumberedSize(Directs(Locate(Scan(Print(f), 0)).value), TopSpans(Until(s)), 0);
    assert ParaChildren(Done, EmptyEnd(Bare(PARA), EndAt(Bare(BODY), Done, [], at))) == [];
    assert |ParaChildren(LONE_PARA, EndAt(Bare(BODY), Done, [], at))| == 1;
  }

  /** A `p` that is bound to the WordprocessingML namespace by a prefix outside ASCII. */
  const FOREIGN_PARA: Forest := Empty(TagHead(Name(Some(ACCENTED), PARA, true), [], []), Done)

  /**
   The count of direct paragraphs, the one thing `select_target` compares, can agree although the elements differ:
   in `<body><x><p/></x><x:p/></body>`, `x` outside ASCII, the scan counts the first `p` and the parser the second.
   */
  lemma {:induction false} EqualCountsMislead()
    ensures var f := Node(BODY, Node(ACCENTED, LONE_PARA, FOREIGN_PARA), Done);
            var located := Locate(Scan(Print(f), 0));
            && WellFormed(f) && ProperBody(f) && located.Some? && |Directs(located.value)| == 1
            && var bound := BoundTopSpans(BodyOf(f, 0).value.0, BodyOf(f, 0).value.1);
               |bound| == 1 && Directs(located.value)[0].start < bound[0].start
  {
    hide Scan, Locate, Print, Directs, CloseAt, EndAt, Placed, EndsRight, EndsCanBeRight, Spans;
    NamesSeen();
    var hidden := Node(ACCENTED, LONE_PARA, FOREIGN_PARA);
    var f := Node(BODY, hidden, Done);
    assert WellFormed(Done) && WellFormed(LONE_PARA) && WellFormed(FOREIGN_PARA) && WellFormed(hidden);
    LocateDocument(f);
    BodySeen(f, 0);
    RegionOfBody(SeenIn(f, 0));
    var (kids, at) := BodyOf(f, 0).value;
    var h := Bare(ACCENTED);
    var inner, end := InnerAt(h, at), EndAt(h, LONE_PARA, [], at);
    ElemSize(h, LONE_PARA, [], FOREIGN_PARA, at);
    ForeignUnseen(end);
    var shown := SeenIn(LONE_PARA, inner);
    assert SeenIn(Done, EmptyEnd(Bare(PARA), inner)) == Nil;
    assert shown.Solo? && shown.name == PARA && shown.rest == Nil && shown.start == inner;
    assert SeenIn(kids, at) == Append(shown, Nil) == shown;
    assert Until(shown) == shown && TopSpans(shown) == [Span(inner, shown.end, shown.end, true)] + TopSpans(Nil);
    ElemBetween(h, LONE_PARA, [], at);
  }

  lemma {:induction false} ElemBetween(h: TagHead, kids: Forest, tail: seq<byte>, off: nat)
    ensures InnerAt(h, off) < EndAt(h, kids, tail, off)
  {}

  lemma {:induction false} ForeignUnseen(at: nat)
    ensures SeenIn(FOREIGN_PARA, at) == Nil
    ensures |BoundTopSpans(FOREIGN_PARA, at)| == 1 && BoundTopSpans(FOREIGN_PARA, at)[0].start == at
  {
    var h := FOREIGN_PARA.head;
    assert PrintName(h.name)[0] == 195;
    assert SeenIn(Done, EmptyEnd(h, at)) == Nil && BoundTopSpans(Done, EmptyEnd(h, at)) == [];
  }

  const DOCUMENT_TAG: seq<byte> := [100]

  /** A direct entry behind an empty `body`: `<d><body/><p/></d>`. */
  lemma {:induction false} EmptyBodyFails()
    ensures var f := Node(DOCUMENT_TAG, Empty(Bare(BODY), LONE_PARA), Done);
            var located := Locate(Scan(Print(f), 0));
            && WellFormed(f) && located.Some? && |Directs(located.value)| == 1
            && BodyOf(f, 0).Some? && BodyOf(f, 0).value.0 == Done
  {
    hide Scan, Locate, Print, Directs, Numbered, InnerAt, CloseAt, EndAt, EmptyEnd, Placed, EndsRight, EndsCanBeRight, Spans;
    NamesSeen();
    var body := Empty(Bare(BODY), LONE_PARA);
    var f := Node(DOCUMENT_TAG, body, Done);
    assert WellFormed(Done) && WellFormed(LONE_PARA) && WellFormed(body) && Seen(Bare(DOCUMENT_TAG));
    LocateDocument(f);
    var at := InnerAt(Bare(DOCUMENT_TAG), 0);
    var after := EmptyEnd(Bare(BODY), at);
    var shown := SeenIn(LONE_PARA, after);
    assert SeenIn(Done, EmptyEnd(Bare(PARA), after)) == Nil;
    assert shown.Solo? && shown.name == PARA && shown.rest == Nil;
    var s := SeenIn(f, 0);
    assert s.Box? && s.kids == Solo(BODY, at, after, shown) && s.rest == Nil;
    assert BodyRegion(s.kids) == Some(Region(Until(shown), false));
    assert Until(shown) == shown && Part(s) == Append(shown, Nil) == shown;
    assert |TopSpans(shown)| == 1;
    NumberedSize(Directs(Locate(Scan(Print(f), 0)).value), TopSpans(shown), 0);
  }
}
