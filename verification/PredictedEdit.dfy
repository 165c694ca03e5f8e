/** When the libraries report the document as it is: the predicted edit changes one text node, in the named paragraph. */
module PredictedEdit {
  import opened Sequences
  import opened Scanner
  import opened Markup
  import opened ScanStability
  import opened Locator
  import opened LocatorTrees
  import opened LocatorResults
  import opened LocatorTables
  import opened LocatorDirects
  import opened TextRanges
  import opened TextPairing
  import opened Queries
  import opened Target
  import opened TargetFacts
  import opened LeafEdits

  // ----- changing the content of one w:t -----

  /** The tree with the content of the i-th `w:t` replaced. */
  function SetText(f: Forest, i: nat, content: Forest): Forest {
    match f
    case Done => Done
    case LeafNode(l, rest) => LeafNode(l, SetText(rest, i, content))
    case Empty(h, rest) =>
      if !IsText(h) then Empty(h, SetText(rest, i, content))
      else if i == 0 then f
      else Empty(h, SetText(rest, i - 1, content))
    case Elem(h, kids, tail, rest) =>
      if IsText(h) && i == 0 then Elem(h, content, tail, rest)
      else
        var j := if IsText(h) then i - 1 else i;
        if j < TextCount(kids) then Elem(h, SetText(kids, j, content), tail, rest)
        else Elem(h, kids, tail, SetText(rest, j - TextCount(kids), content))
  }

  function PlainText(bs: seq<byte>): Forest {
    LeafNode(Text(bs), Done)
  }

  /** What replacing content without tags by equally long content keeps, and the one place where the print changes. */
  ghost predicate TextSwapped(f: Forest, off: nat, i: nat, bs: seq<byte>, g: Forest) {
    && |Print(g)| == |Print(f)| && Events(g, off) == Events(f, off) && Own(g, off) == Own(f, off)
    && |Own(f, off)| == TextCount(f) && TextCount(g) == TextCount(f) && i < TextCount(f)
    && off <= Own(f, off)[i].start && Own(f, off)[i].start - off + |bs| <= |Print(f)|
    && Print(g) == Splice(Print(f), Own(f, off)[i].start - off, bs)
  }

  lemma {:induction false} OwnCount(f: Forest, off: nat)
    ensures |Own(f, off)| == TextCount(f)
  {
    hide PrintOpen, PrintEmpty, PrintClose, PrintLeaf, Print, IsText;
    match f
    case Done =>
    case LeafNode(l, rest) => OwnCount(rest, LeafEnd(l, off));
    case Empty(h, rest) => OwnCount(rest, EmptyEnd(h, off));
    case Elem(h, kids, tail, rest) =>
      OwnCount(kids, InnerAt(h, off));
      OwnCount(rest, EndAt(h, kids, tail, off));
  }

  lemma {:induction false} SpliceInside<T>(a: seq<T>, p: seq<T>, c: seq<T>, at: nat, bs: seq<T>)
    requires at + |bs| <= |p|
    ensures Splice(a + p + c, |a| + at, bs) == a + Splice(p, at, bs) + c
  {}

  lemma {:induction false} PrintElem(h: TagHead, kids: Forest, tail: seq<byte>, rest: Forest)
    ensures Print(Elem(h, kids, tail, rest)) == PrintOpen(h) + Print(kids) + (PrintClose(h.name, tail) + Print(rest))
    ensures Print(Elem(h, kids, tail, rest)) == PrintOpen(h) + Print(kids) + PrintClose(h.name, tail) + Print(rest) + []
  {}

  lemma {:induction false} PrintText(bs: seq<byte>)
    ensures Print(PlainText(bs)) == bs && OwnKids(PlainText(bs)) == []
    ensures forall off :: Events(PlainText(bs), off) == [] && Own(PlainText(bs), off) == []
    ensures WellFormed(PlainText(bs)) <==> LT !in bs
  {
    assert bs + [] == bs;
  }

  lemma {:induction false} OwnElem(h: TagHead, kids: Forest, tail: seq<byte>, rest: Forest, off: nat)
    ensures Own(Elem(h, kids, tail, rest), off) ==
            (if IsText(h) then [Range(InnerAt(h, off), CloseAt(h, kids, off))] else [])
            + Own(kids, InnerAt(h, off)) + Own(rest, EndAt(h, kids, tail, off))
    ensures TextCount(Elem(h, kids, tail, rest)) == (if IsText(h) then 1 else 0) + TextCount(kids) + TextCount(rest)
  {
    hide InnerAt, CloseAt, EndAt, IsText, OwnKids;
    OwnKidsElem(h, kids, tail, rest);
  }

  lemma {:induction false} EventsElem(h: TagHead, kids: Forest, tail: seq<byte>, rest: Forest, off: nat)
    ensures Events(Elem(h, kids, tail, rest), off) ==
            Event(h.name, false, false, off, InnerAt(h, off)) + Events(kids, InnerAt(h, off))
            + Event(h.name, true, false, CloseAt(h, kids, off), EndAt(h, kids, tail, off))
            + Events(rest, EndAt(h, kids, tail, off))
  {
    hide PrintOpen, PrintClose, Print, Event;
  }

  /** Content with no tags and no `w:t` in it. */
  ghost predicate Tagless(f: Forest) {
    OwnKids(f) == [] && forall off: nat :: Events(f, off) == [] && Own(f, off) == []
  }

  /** The w:t itself. */
  lemma {:induction false} SwapHere(h: TagHead, tail: seq<byte>, rest: Forest, off: nat, was: Forest, content: Forest)
    requires IsText(h) && Tagless(was) && Tagless(content) && |Print(content)| == |Print(was)|
    ensures TextSwapped(Elem(h, was, tail, rest), off, 0, Print(content), Elem(h, content, tail, rest))
  {
    hide PrintOpen, PrintClose, IsText, Event, Print, Events, Own, OwnKids, Splice;
    var f := Elem(h, was, tail, rest);
    OwnCount(f, off);
    OwnElem(h, was, tail, rest, off);
    OwnElem(h, content, tail, rest, off);
    EventsElem(h, was, tail, rest, off);
    EventsElem(h, content, tail, rest, off);
    PrintElem(h, was, tail, rest);
    PrintElem(h, content, tail, rest);
    SpliceInside(PrintOpen(h), Print(was), PrintClose(h.name, tail) + Print(rest), 0, Print(content));
    SpliceAll(Print(was), Print(content));
  }

  lemma {:induction false} SpliceAll<T>(a: seq<T>, b: seq<T>)
    requires |a| == |b|
    ensures Splice(a, 0, b) == b
  {}

  lemma {:induction false} SwapKids(h: TagHead, kids: Forest, kids': Forest, tail: seq<byte>, rest: Forest, off: nat,
                                    i: nat, j: nat, bs: seq<byte>)
    requires i == j + if IsText(h) then 1 else 0
    requires TextSwapped(kids, InnerAt(h, off), j, bs, kids')
    ensures TextSwapped(Elem(h, kids, tail, rest), off, i, bs, Elem(h, kids', tail, rest))
  {
    hide PrintOpen, PrintClose, IsText, Event, Print, Events, Own, OwnKids, Splice;
    OwnCount(Elem(h, kids, tail, rest), off);
    OwnElem(h, kids, tail, rest, off);
    OwnElem(h, kids', tail, rest, off);
    EventsElem(h, kids, tail, rest, off);
    EventsElem(h, kids', tail, rest, off);
    PrintElem(h, kids, tail, rest);
    PrintElem(h, kids', tail, rest);
    var inner := InnerAt(h, off);
    SpliceInside(PrintOpen(h), Print(kids), PrintClose(h.name, tail) + Print(rest), Own(kids, inner)[j].start - inner, bs);
    assert Own(Elem(h, kids, tail, rest), off)[i] == Own(kids, inner)[j];
  }

  lemma {:induction false} SwapRest(f: Forest, g: Forest, rest: Forest, rest': Forest, head: seq<byte>, off: nat, mid: nat,
                                    own: seq<Range>, events: seq<Tag>, i: nat, j: nat, bs: seq<byte>)
    requires mid == off + |head| && i == |own| + j
    requires Print(f) == head + Print(rest) && Print(g) == head + Print(rest')
    requires Own(f, off) == own + Own(rest, mid) && Own(g, off) == own + Own(rest', mid)
    requires Events(f, off) == events + Events(rest, mid) && Events(g, off) == events + Events(rest', mid)
    requires TextSwapped(rest, mid, j, bs, rest')
    ensures TextSwapped(f, off, i, bs, g)
  {
    hide Print, Own, Events, Splice, OwnKids;
    OwnCount(f, off);
    OwnCount(g, off);
    SpliceInside(head, Print(rest), [], Own(rest, mid)[j].start - mid, bs);
    assert head + Print(rest) + [] == head + Print(rest);
    assert head + Print(rest') + [] == head + Print(rest');
    assert Own(f, off)[i] == Own(rest, mid)[j];
  }

  lemma {:induction false} SetTextSwaps(f: Forest, off: nat, i: nat, content: Forest)
    requires i < TextCount(f) && Tagless(OwnKids(f)[i]) && Tagless(content) && |Print(content)| == |Print(OwnKids(f)[i])| > 0
    ensures TextSwapped(f, off, i, Print(content), SetText(f, i, content))
    ensures WellFormed(f) && WellFormed(content) ==> WellFormed(SetText(f, i, content))
    decreases f
  {
    hide PrintOpen, PrintEmpty, PrintClose, PrintLeaf, Print, IsText, Event, GoodHead, GoodLeaf, AllSpace, TextSwapped, InnerAt,
         CloseAt, EndAt, EmptyEnd, LeafEnd, Tagless;
    var g := SetText(f, i, content);
    NothingPrinted();
    match f
    case LeafNode(l, rest) =>
      SetTextSwaps(rest, LeafEnd(l, off), i, content);
      SwapLeaf(l, rest, g.rest, off, i, Print(content));
    case Empty(h, rest) =>
      var j := if IsText(h) then i - 1 else i;
      SetTextSwaps(rest, EmptyEnd(h, off), j, content);
      SwapEmpty(h, rest, g.rest, off, i, j, Print(content));
    case Elem(h, kids, tail, rest) =>
      if IsText(h) && i == 0 {
        SwapHere(h, tail, rest, off, kids, content);
      } else {
        var j := if IsText(h) then i - 1 else i;
        if j < TextCount(kids) {
          SetTextSwaps(kids, InnerAt(h, off), j, content);
          SwapKids(h, kids, g.kids, tail, rest, off, i, j, Print(content));
        } else {
          SetTextSwaps(rest, EndAt(h, kids, tail, off), j - TextCount(kids), content);
          SwapAfter(h, kids, tail, rest, g.rest, off, i, j - TextCount(kids), Print(content));
        }
      }
  }

  lemma {:induction false} NothingPrinted()
    ensures Print(Done) == []
  {}

  lemma {:induction false} SwapLeaf(l: Leaf, rest: Forest, rest': Forest, off: nat, i: nat, bs: seq<byte>)
    requires TextSwapped(rest, LeafEnd(l, off), i, bs, rest')
    ensures TextSwapped(LeafNode(l, rest), off, i, bs, LeafNode(l, rest'))
  {
    hide TextSwapped, PrintLeaf, OwnKids, Print, Own, Events;
    var mid := LeafEnd(l, off);
    LeafParts(l, rest, off);
    LeafParts(l, rest', off);
    SwapRest(LeafNode(l, rest), LeafNode(l, rest'), rest, rest', PrintLeaf(l), off, mid, [], [], i, i, bs);
  }

  lemma {:induction false} LeafParts(l: Leaf, rest: Forest, off: nat)
    ensures var f, mid := LeafNode(l, rest), LeafEnd(l, off);
            && Print(f) == PrintLeaf(l) + Print(rest) && Own(f, off) == [] + Own(rest, mid)
            && Events(f, off) == [] + Events(rest, mid)
  {
    hide PrintLeaf;
  }

  lemma {:induction false} SwapEmpty(h: TagHead, rest: Forest, rest': Forest, off: nat, i: nat, j: nat, bs: seq<byte>)
    requires i == j + if IsText(h) then 1 else 0
    requires TextSwapped(rest, EmptyEnd(h, off), j, bs, rest')
    ensures TextSwapped(Empty(h, rest), off, i, bs, Empty(h, rest'))
  {
    hide TextSwapped, PrintEmpty, IsText, Event;
    var mid := EmptyEnd(h, off);
    SwapRest(Empty(h, rest), Empty(h, rest'), rest, rest', PrintEmpty(h), off, mid,
             if IsText(h) then [Range(mid, mid)] else [], Event(h.name, false, true, off, mid), i, j, bs);
  }

  lemma {:induction false} SwapAfter(h: TagHead, kids: Forest, tail: seq<byte>, rest: Forest, rest': Forest, off: nat,
                                     i: nat, j: nat, bs: seq<byte>)
    requires i == j + TextCount(kids) + if IsText(h) then 1 else 0
    requires TextSwapped(rest, EndAt(h, kids, tail, off), j, bs, rest')
    ensures TextSwapped(Elem(h, kids, tail, rest), off, i, bs, Elem(h, kids, tail, rest'))
  {
    hide TextSwapped, PrintOpen, PrintClose, IsText, Event, Print, Events, Own, OwnKids;
    var inner, close, end := InnerAt(h, off), CloseAt(h, kids, off), EndAt(h, kids, tail, off);
    var head := PrintOpen(h) + Print(kids) + PrintClose(h.name, tail);
    OwnCount(kids, inner);
    PrintElem(h, kids, tail, rest);
    PrintElem(h, kids, tail, rest');
    OwnElem(h, kids, tail, rest, off);
    OwnElem(h, kids, tail, rest', off);
    EventsElem(h, kids, tail, rest, off);
    EventsElem(h, kids, tail, rest', off);
    var own := (if IsText(h) then [Range(inner, close)] else []) + Own(kids, inner);
    var events := Event(h.name, false, false, off, inner) + Events(kids, inner) + Event(h.name, true, false, close, end);
    assert head + Print(rest) + [] == head + Print(rest) && head + Print(rest') + [] == head + Print(rest');
    SwapRest(Elem(h, kids, tail, rest), Elem(h, kids, tail, rest'), rest, rest', head, off, end, own, events, i, j, bs);
  }

  // ----- the predicted edit -----

  /** The parser reports the tree and the callbacks of the document that was printed. */
  ghost predicate Truthful(lib: Library, f: Forest) {
    lib.parse(Print(f)) == Some(f) && lib.calls(Print(f)) == (Callbacks(f, 0), true)
  }

  lemma {:induction false} KidsWellFormed(f: Forest, i: nat)
    requires WellFormed(f) && i < TextCount(f)
    ensures WellFormed(OwnKids(f)[i])
  {
    hide IsText, GoodHead, GoodLeaf, AllSpace;
    match f
    case LeafNode(_, rest) => KidsWellFormed(rest, i);
    case Empty(h, rest) =>
      if !IsText(h) {
        KidsWellFormed(rest, i);
      } else if i > 0 {
        KidsWellFormed(rest, i - 1);
      }
    case Elem(h, kids, tail, rest) =>
      OwnKidsElem(h, kids, tail, rest);
      var j := if IsText(h) then i - 1 else i;
      if IsText(h) && i == 0 {
      } else if j < TextCount(kids) {
        KidsWellFormed(kids, j);
      } else {
        KidsWellFormed(rest, j - TextCount(kids));
      }
  }

  lemma {:induction false} NestedSplice(doc: seq<byte>, a: nat, bs: seq<byte>, at: nat, r: seq<byte>)
    requires At(doc, bs, a) && at + |r| <= |bs|
    ensures Splice(doc, a, Splice(bs, at, r)) == Splice(doc, a + at, r)
  {
    AtIndex(doc, bs, a);
    var x, y := Splice(doc, a, Splice(bs, at, r)), Splice(doc, a + at, r);
    forall i | 0 <= i < |doc| ensures x[i] == y[i] {
      if a <= i < a + |bs| {
        assert doc[a + (i - a)] == bs[i - a];
      }
    }
    assert x == y;
  }

  lemma {:induction false} InnerAtText(doc: seq<byte>, pat: seq<byte>, a: nat, bs: seq<byte>, i: nat)
    requires At(doc, bs, a) && At(doc, pat, i) && a <= i && i + |pat| <= a + |bs|
    ensures At(bs, pat, i - a)
  {
    AtWithin(doc, bs, a, pat, i - a);
  }

  /** The content of the i-th `w:t` with the target's replacement written over its query, leaf by leaf. */
  ghost function Edited(f: Forest, i: nat, t: EditTarget): Forest
    requires i < TextCount(f)
  {
    Rewrite(OwnKids(f)[i], t.queryStart - t.wtStart, Utf8(t.replacement))
  }

  /** `t` changes the leaves of the i-th `w:t` at the query, each into one of its kind and length, and nothing else. */
  ghost predicate IsTextEdit(f: Forest, i: nat, t: EditTarget)
    requires i < TextCount(f)
  {
    var at, was, content := t.queryStart - t.wtStart, OwnKids(f)[i], Edited(f, i, t);
    && 0 <= at && At(Print(was), Utf8(t.query), at) && |Utf8(t.replacement)| == |Utf8(t.query)|
    && SameLeaves(was, content) && Print(content) == Splice(Print(was), at, Utf8(t.replacement))
    && var g := SetText(f, i, content);
       t.expected == Print(g) && WellFormed(g) && Own(g, 0) == Own(f, 0) && Events(g, 0) == Events(f, 0)
  }

  /**
   When the libraries report the document as it is and the chosen `w:t` has no child elements - texts, comments, CDATA
   sections and instructions in any number -: the expected document is the print of the same tree with only the leaves
   of that `w:t` changed at the query, is well formed again, and has the same tags, the same located paragraphs and the
   same text ranges.
   */
  lemma {:induction false} PredictedIsTextEdit(lib: Library, f: Forest, others: seq<string>, s: Selection, i: nat)
    requires WellFormed(f) && Pairable(f) && Truthful(lib, f)
    requires IsSelection(lib, Print(f), others, s) && s.Selected?
    requires i < TextCount(f) && i < |Own(f, 0)| && NoChildren(OwnKids(f)[i])
    requires Own(f, 0)[i] == Range(s.target.wtStart, s.target.wtEnd)
    ensures IsTextEdit(f, i, s.target)
    ensures Scan(s.target.expected, 0) == Scan(Print(f), 0)
    ensures Locate(Scan(s.target.expected, 0)) == Locate(Scan(Print(f), 0))
  {
    hide Scan, Locate, GoodTarget, WellFormed, Pairable, IsSelection, Events, OwnKids, Own, Print, Holds, IsTextEdit, NoChildren;
    var t, doc := s.target, Print(f);
    SelectionIsGood(lib, doc, others, s);
    Whole(doc);
    OwnHolds(doc, f, 0);
    HoldsAt(doc, Own(f, 0), OwnKids(f), i);
    TextEditTree(f, i, t);
    EditedScan(f, i, t);
  }

  lemma {:induction false} EditedScan(f: Forest, i: nat, t: EditTarget)
    requires WellFormed(f) && i < TextCount(f) && IsTextEdit(f, i, t)
    ensures Scan(t.expected, 0) == Scan(Print(f), 0)
  {
    hide Scan, Print, Events, WellFormed, SetText, Own, Utf8, Splice, Edited, OwnKids;
    ScanUndoesPrint(f);
    ScanUndoesPrint(SetText(f, i, Edited(f, i, t)));
  }

  lemma {:induction false} TextEditTree(f: Forest, i: nat, t: EditTarget)
    requires WellFormed(f) && GoodTarget(Print(f), t)
    requires i < TextCount(f) && i < |Own(f, 0)| && NoChildren(OwnKids(f)[i])
    requires Own(f, 0)[i] == Range(t.wtStart, t.wtEnd)
    requires At(Print(f), Print(OwnKids(f)[i]), t.wtStart) && |Print(OwnKids(f)[i])| == t.wtEnd - t.wtStart
    ensures IsTextEdit(f, i, t)
  {
    hide Utf8, IsQuery, ReplacementOr, Find, WellFormed, Events, OwnKids, Own, Print, SetText, Splice, At, Replaces, NoChildren,
         SameLeaves, OverWords, LeafEdits.Words, Tagless, Over, Rewrite;
    var qb, rb := Utf8(t.query), Utf8(t.replacement);
    var was, content := OwnKids(f)[i], Edited(f, i, t);
    var bs := Print(was);
    ReplacesLength(qb, rb);
    NoAngle(t.query);
    var at := t.queryStart - t.wtStart;
    InnerAtText(Print(f), qb, t.wtStart, bs, t.queryStart);
    QueryStretch(bs, at, qb, rb);
    RewritePrint(was, at, rb);
    NestedSplice(Print(f), t.wtStart, bs, at, rb);
    KidsWellFormed(f, i);
    LeavesTagless(was);
    LeavesTagless(content);
    SetTextSwaps(f, 0, i, content);
  }

  /** The query's bytes are a stretch that may be overwritten. */
  lemma {:induction false} QueryStretch(bs: seq<byte>, at: nat, q: seq<byte>, r: seq<byte>)
    requires At(bs, q, at) && Replaces(q, r)
    ensures OverWords(bs, at, |r|) && LeafEdits.Words(r) && at + |r| <= |bs| && Over(bs, at, r) == Splice(bs, at, r)
  {
    AtIndex(bs, q, at);
    forall k | 0 <= k < |bs| && at <= k < at + |r| ensures Word(bs[k]) {
      assert bs[at + (k - at)] == q[k - at];
    }
  }

  lemma {:induction false} LeavesTagless(f: Forest)
    requires NoChildren(f)
    ensures Tagless(f)
  {
    hide Events, Own, OwnKids, NoChildren;
    forall off: nat ensures Events(f, off) == [] && Own(f, off) == [] {
      NoChildTags(f, off);
    }
    NoChildTags(f, 0);
  }

  lemma {:induction false} HoldsAt(doc: seq<byte>, ranges: seq<Range>, kids: seq<Forest>, i: nat)
    requires Holds(doc, ranges, kids) && i < |ranges|
    ensures ranges[i].start <= ranges[i].end <= |doc| && |Print(kids[i])| == ranges[i].end - ranges[i].start
    ensures At(doc, Print(kids[i]), ranges[i].start)
  {}

  // ----- the paragraph the target names -----

  ghost predicate Stretch(own: seq<Range>, from: int, part: seq<Range>) {
    0 <= from && from + |part| <= |own| && own[from..from + |part|] == part
  }

  /** A paragraph's recorded ranges are a stretch of all of them, and its content lies within its span. */
  ghost predicate RangesWithin(own: seq<Range>, idx: nat, p: Para) {
    var part := Own(p.kids, p.at);
    && Stretch(own, p.first - idx, part)
    && p.span.start < p.at && p.at + |Print(p.kids)| <= p.span.end
  }

  lemma {:induction false} SliceShift<T>(head: seq<T>, own: seq<T>, tail: seq<T>, i: nat, n: nat)
    requires |head| <= i && i + n <= |head| + |own|
    ensures (head + own + tail)[i..i + n] == own[i - |head|..i - |head| + n]
  {}

  lemma {:induction false} RangesShift(head: seq<Range>, own: seq<Range>, tail: seq<Range>, idx: nat, p: Para)
    requires RangesWithin(own, idx + |head|, p)
    ensures RangesWithin(head + own + tail, idx, p)
  {
    hide Own, Print;
    SliceShift(head, own, tail, p.first - idx, |Own(p.kids, p.at)|);
  }

  lemma {:induction false} WholeStretch(own: seq<Range>)
    ensures Stretch(own, 0, own)
  {}

  lemma {:induction false} NoStretch(own: seq<Range>)
    ensures Stretch(own, 0, [])
  {}

  lemma {:induction false} RangesSelf(kids: Forest, at: nat, idx: nat, p: Para)
    requires p.kids == kids && p.at == at && p.first == idx && p.span.start < at && at + |Print(kids)| <= p.span.end
    ensures RangesWithin(Own(kids, at), idx, p)
  {
    hide Own, Print, Stretch;
    WholeStretch(Own(kids, at));
  }

  lemma {:induction false} RangesNone(own: seq<Range>, idx: nat, p: Para)
    requires p.kids == Done && p.first == idx && p.span.start < p.at <= p.span.end
    ensures RangesWithin(own, idx, p) && Print(p.kids) == []
  {
    hide Stretch;
    NoStretch(own);
  }

  lemma {:induction false} OwnEmpty(h: TagHead, rest: Forest, off: nat)
    ensures var end := EmptyEnd(h, off);
            Own(Empty(h, rest), off) == (if IsText(h) then [Range(end, end)] else []) + Own(rest, end) + []
  {
    hide PrintEmpty, IsText;
  }

  /** The p's of a forest: their spans are those of the bound `p` children, their ranges lie within. */
  lemma {:induction false} ParasRanges(f: Forest, off: nat, idx: nat)
    ensures forall p :: p in Paras(f, off, idx) ==> RangesWithin(Own(f, off), idx, p)
    decreases f
  {
    hide IsText, PrintOpen, PrintEmpty, PrintClose, PrintLeaf, Print, Own, RangesWithin, InnerAt, CloseAt, EndAt, EmptyEnd;
    match f
    case Done =>
    case LeafNode(l, rest) =>
      ParasRanges(rest, LeafEnd(l, off), idx);
      OwnLeaf(l, rest, off);
    case Empty(h, rest) =>
      var end := EmptyEnd(h, off);
      var own := if IsText(h) then [Range(end, end)] else [];
      ParasRanges(rest, end, idx + |own|);
      OwnEmpty(h, rest, off);
      EmptySize(h, rest, off);
      forall p | p in Paras(f, off, idx) ensures RangesWithin(Own(f, off), idx, p) {
        if p in Paras(rest, end, idx + |own|) {
          RangesShift(own, Own(rest, end), [], idx, p);
        } else {
          RangesNone(Own(f, off), idx, p);
        }
      }
    case Elem(h, kids, tail, rest) =>
      var inner, end := InnerAt(h, off), EndAt(h, kids, tail, off);
      var own := if IsText(h) then [Range(inner, CloseAt(h, kids, off))] else [];
      var before := idx + |own|;
      OwnCount(kids, inner);
      ParasRanges(rest, end, before + TextCount(kids));
      OwnElem(h, kids, tail, rest, off);
      ElemSize(h, kids, tail, rest, off);
      assert own + Own(kids, inner) + Own(rest, end) + [] == own + Own(kids, inner) + Own(rest, end);
      forall p | p in Paras(f, off, idx) ensures RangesWithin(Own(f, off), idx, p) {
        if p in Paras(rest, end, before + TextCount(kids)) {
          RangesShift(own + Own(kids, inner), Own(rest, end), [], idx, p);
        } else {
          RangesSelf(kids, inner, before, p);
          RangesShift(own, Own(kids, inner), Own(rest, end), idx, p);
        }
      }
  }

  lemma {:induction false} OwnLeaf(l: Leaf, rest: Forest, off: nat)
    ensures Own(LeafNode(l, rest), off) == Own(rest, LeafEnd(l, off))
  {}

  function SpansOf(paras: seq<Para>): seq<Span> {
    seq(|paras|, i requires 0 <= i < |paras| => paras[i].span)
  }

  lemma {:induction false} SpansConcat(a: seq<Para>, b: seq<Para>)
    ensures SpansOf(a + b) == SpansOf(a) + SpansOf(b)
  {}

  lemma {:induction false} SpansOne(p: Para)
    ensures SpansOf([p]) == [p.span] && SpansOf([]) == []
  {}

  lemma {:induction false} ParasSpans(f: Forest, off: nat, idx: nat)
    ensures SpansOf(Paras(f, off, idx)) == BoundTopSpans(f, off)
    decreases f
  {
    hide IsText, PrintOpen, PrintEmpty, PrintClose, PrintLeaf, Print, SpansOf, OwnKids, InnerAt, EndAt, EmptyEnd;
    match f
    case Done => SpansOne(Para(Span(0, 0, 0, true), Done, 0, 0));
    case LeafNode(l, rest) => ParasSpans(rest, LeafEnd(l, off), idx);
    case Empty(h, rest) =>
      var end, n := EmptyEnd(h, off), if IsText(h) then idx + 1 else idx;
      var p := Para(Span(off, end, end, true), Done, end, idx);
      SpansOne(p);
      SpansConcat(if h.name.w && h.name.local == PARA then [p] else [], Paras(rest, end, n));
      ParasSpans(rest, end, n);
    case Elem(h, kids, tail, rest) =>
      var inner, end, n := InnerAt(h, off), EndAt(h, kids, tail, off), if IsText(h) then idx + 1 else idx;
      var p := Para(Span(off, inner, end, false), kids, inner, n);
      SpansOne(p);
      SpansConcat(if h.name.w && h.name.local == PARA then [p] else [], Paras(rest, end, n + TextCount(kids)));
      ParasSpans(rest, end, n + TextCount(kids));
  }

  /** The body's recorded ranges are a stretch of the document's. */
  lemma {:induction false} BodyRanges(f: Forest, off: nat, idx: nat)
    requires BoundBody(f, off, idx).Some?
    ensures var (kids, at, first) := BoundBody(f, off, idx).value;
            && off < at && at + |Print(kids)| <= off + |Print(f)|
            && RangesWithin(Own(f, off), idx, Para(Span(off, at, off + |Print(f)|, false), kids, at, first))
    decreases f
  {
    hide IsText, PrintOpen, PrintEmpty, PrintClose, PrintLeaf, Print, Own, OwnKids, RangesWithin, InnerAt, CloseAt, EndAt, EmptyEnd;
    var (bk, at, first) := BoundBody(f, off, idx).value;
    var whole := Para(Span(off, at, off + |Print(f)|, false), bk, at, first);
    match f
    case LeafNode(l, rest) =>
      BodyRanges(rest, LeafEnd(l, off), idx);
      OwnLeaf(l, rest, off);
      LeafSize(l, rest, off);
      RangesWider(Own(f, off), idx, Para(Span(LeafEnd(l, off), at, off + |Print(f)|, false), bk, at, first), whole);
    case Empty(h, rest) =>
      var end := EmptyEnd(h, off);
      var own := if IsText(h) then [Range(end, end)] else [];
      EmptySize(h, rest, off);
      EmptyPrint(h, rest, off);
      if h.name.w && h.name.local == BODY {
        BodyNotText(h);
        RangesNone(Own(f, off), idx, whole);
      } else {
        BodyRanges(rest, end, idx + |own|);
        OwnEmpty(h, rest, off);
        RangesShift(own, Own(rest, end), [], idx, Para(Span(end, at, end + |Print(rest)|, false), bk, at, first));
        RangesWider(Own(f, off), idx, Para(Span(end, at, end + |Print(rest)|, false), bk, at, first), whole);
      }
    case Elem(h, kids, tail, rest) => BodyRangesElem(h, kids, tail, rest, off, idx);
  }

  lemma {:induction false} BodyRangesElem(h: TagHead, kids: Forest, tail: seq<byte>, rest: Forest, off: nat, idx: nat)
    requires BoundBody(Elem(h, kids, tail, rest), off, idx).Some?
    ensures var f := Elem(h, kids, tail, rest);
            var (bk, at, first) := BoundBody(f, off, idx).value;
            && off < at && at + |Print(bk)| <= off + |Print(f)|
            && RangesWithin(Own(f, off), idx, Para(Span(off, at, off + |Print(f)|, false), bk, at, first))
    decreases Elem(h, kids, tail, rest), 0
  {
    hide IsText, PrintOpen, PrintClose, Print, Own, OwnKids, RangesWithin, InnerAt, CloseAt, EndAt;
    var f := Elem(h, kids, tail, rest);
    var (bk, at, first) := BoundBody(f, off, idx).value;
    var whole := Para(Span(off, at, off + |Print(f)|, false), bk, at, first);
    var inner, end := InnerAt(h, off), EndAt(h, kids, tail, off);
    var own := if IsText(h) then [Range(inner, CloseAt(h, kids, off))] else [];
    OwnCount(kids, inner);
    OwnElem(h, kids, tail, rest, off);
    ElemSize(h, kids, tail, rest, off);
    if h.name.w && h.name.local == BODY {
      BodyNotText(h);
      RangesSelf(kids, inner, idx, whole);
      RangesShift(own, Own(kids, inner), Own(rest, end), idx, whole);
    } else if BoundBody(kids, inner, idx + |own|).Some? {
      BodyRanges(kids, inner, idx + |own|);
      var p := Para(Span(inner, at, inner + |Print(kids)|, false), bk, at, first);
      RangesShift(own, Own(kids, inner), Own(rest, end), idx, p);
      RangesWider(Own(f, off), idx, p, whole);
    } else {
      BodyRanges(rest, end, idx + |own| + TextCount(kids));
      var p := Para(Span(end, at, end + |Print(rest)|, false), bk, at, first);
      RangesShift(own + Own(kids, inner), Own(rest, end), [], idx, p);
      assert own + Own(kids, inner) + Own(rest, end) + [] == own + Own(kids, inner) + Own(rest, end);
      RangesWider(Own(f, off), idx, p, whole);
    }
  }

  lemma {:induction false} RangesWider(own: seq<Range>, idx: nat, p: Para, q: Para)
    requires RangesWithin(own, idx, p) && q.kids == p.kids && q.at == p.at && q.first == p.first
    requires q.span.start <= p.span.start && p.span.end <= q.span.end
    ensures RangesWithin(own, idx, q)
    ensures q.span.start < q.at && q.at + |Print(q.kids)| <= q.span.end
  {
    hide Own, Print;
  }

  lemma {:induction false} LeafSize(l: Leaf, rest: Forest, off: nat)
    ensures off <= LeafEnd(l, off) && off + |Print(LeafNode(l, rest))| == LeafEnd(l, off) + |Print(rest)|
  {}

  lemma {:induction false} EmptyPrint(h: TagHead, rest: Forest, off: nat)
    ensures off + |Print(Empty(h, rest))| == EmptyEnd(h, off) + |Print(rest)|
  {}

  lemma {:induction false} RangeInPara(own: seq<Range>, idx: nat, p: Para, i: nat)
    requires RangesWithin(own, idx, p) && p.first <= i < p.first + |Own(p.kids, p.at)| && Pairable(p.kids)
    ensures p.span.start < own[i - idx].start && own[i - idx].end <= p.span.end
  {
    hide Own, Print, Pairable;
    var part := Own(p.kids, p.at);
    OwnApart(p.kids, p.at);
    assert own[p.first - idx..p.first - idx + |part|][i - p.first] == own[i - idx];
    assert part[i - p.first] == own[i - idx];
  }

  lemma {:induction false} ParasPairable(f: Forest, off: nat, idx: nat)
    requires Pairable(f)
    ensures forall p :: p in Paras(f, off, idx) ==> Pairable(p.kids)
    decreases f
  {
    hide IsText, Clean, PrintOpen, PrintEmpty, PrintClose, PrintLeaf, Print, OwnKids;
    match f
    case Done =>
    case LeafNode(l, rest) => ParasPairable(rest, LeafEnd(l, off), idx);
    case Empty(h, rest) => ParasPairable(rest, EmptyEnd(h, off), if IsText(h) then idx + 1 else idx);
    case Elem(h, kids, tail, rest) =>
      ParasPairable(rest, EndAt(h, kids, tail, off), (if IsText(h) then idx + 1 else idx) + TextCount(kids));
  }

  lemma {:induction false} BodyPairable(f: Forest, off: nat, idx: nat)
    requires Pairable(f) && BoundBody(f, off, idx).Some?
    ensures Pairable(BoundBody(f, off, idx).value.0)
    decreases f
  {
    hide IsText, Clean, PrintOpen, PrintEmpty, PrintClose, PrintLeaf, Print, OwnKids;
    match f
    case LeafNode(l, rest) => BodyPairable(rest, LeafEnd(l, off), idx);
    case Empty(h, rest) =>
      if !(h.name.w && h.name.local == BODY) {
        BodyPairable(rest, EmptyEnd(h, off), if IsText(h) then idx + 1 else idx);
      }
    case Elem(h, kids, tail, rest) =>
      var n := if IsText(h) then idx + 1 else idx;
      if h.name.w && h.name.local == BODY {
      } else if BoundBody(kids, InnerAt(h, off), n).Some? {
        BodyPairable(kids, InnerAt(h, off), n);
      } else {
        BodyPairable(rest, EndAt(h, kids, tail, off), n + TextCount(kids));
      }
  }

  /** The recorded range of a body paragraph's `w:t` lies within that paragraph. */
  lemma {:induction false} RangeOfParagraph(f: Forest, p: Para, i: nat)
    requires Pairable(f) && p in Paragraphs(f) && p.first <= i < p.first + TextCount(p.kids)
    ensures i < |Own(f, 0)| && p.span.start < Own(f, 0)[i].start && Own(f, 0)[i].end <= p.span.end
  {
    hide Own, OwnKids, Print, Pairable, Paras, BoundBody;
    var (kids, at, first) := BoundBody(f, 0, 0).value;
    BodyRanges(f, 0, 0);
    BodyPairable(f, 0, 0);
    ParasRanges(kids, at, first);
    ParasPairable(kids, at, first);
    OwnCount(p.kids, p.at);
    RangeInPara(Own(kids, at), first, p, i);
    var all := Own(f, 0);
    assert all[first..first + |Own(kids, at)|][i - first] == all[i];
  }

  /**
   The tests a caller can make: the first `body` is the bound one and proper, its `p` children are what the locator
   takes for them, and ranges can be paired.
   */
  ghost predicate Ordinary(f: Forest) {
    && WellFormed(f) && Pairable(f) && ProperBody(f) && BoundBody(f, 0, 0).Some?
    && BodyOf(f, 0) == Some((BoundBody(f, 0, 0).value.0, BoundBody(f, 0, 0).value.1))
    && RightChildren(BoundBody(f, 0, 0).value.0)
  }

  /**
   When the libraries report the document as it is: the target's `P{k}` is its own ordinal, the k-th located direct
   entry is the k-th parsed paragraph, and the bytes to be replaced lie inside that very `p` element.
   */
  lemma {:induction false} TargetInItsParagraph(lib: Library, f: Forest, others: seq<string>, s: Selection)
    requires Ordinary(f) && Truthful(lib, f)
    requires IsSelection(lib, Print(f), others, s) && s.Selected?
    ensures var (kids, at) := BodyOf(f, 0).value;
            var t, children := s.target, ParaChildren(kids, at);
            && children == BoundTopSpans(kids, at)
            && t.paragraphId == Some(t.ordinal) && t.ordinal < |children|
            && children[t.ordinal].start < t.queryStart && t.queryEnd <= children[t.ordinal].end
  {
    hide Scan, Locate, Directs, AllCands, FirstSafe, OwnKids, Own, Print, Pairable, ParaChildren, BoundTopSpans, ProperBody, BodyOf,
         GoodTarget, Safe, RunTexts, Handle, Paras, BoundBody, Utf8, Texts, Join, WellFormed, RightChildren, TopSpans, SeenIn, Part,
         CandidateQueries, ParagraphFlags;
    var t, doc := s.target, Print(f);
    var (kids, at) := BodyOf(f, 0).value;
    var paras := Paragraphs(f);
    DirectsAreChildren(f);
    OwnCount(f, 0);
    PairingExact(f);
    SelectionIsGood(lib, doc, others, s);
    ParasSpans(kids, at, BoundBody(f, 0, 0).value.2);
    EqualCountsAgree(kids, at);
    var v := ViewOf(lib, doc, others, f, Own(f, 0));
    var cands := AllCands(lib, 0, paras);
    FirstSafeIn(v, cands);
    var c := FirstSafe(v, cands).value;
    var r := AllCandsIn(lib, 0, paras, c);
    var p := paras[c.ordinal];
    RunTextsIndexed(p.kids, p.first, true);
    RangeOfParagraph(f, p, c.index);
    assert SpansOf(paras)[c.ordinal] == p.span;
    WithinRange(doc, t);
  }

  lemma {:induction false} WithinRange(doc: seq<byte>, t: EditTarget)
    requires GoodTarget(doc, t)
    ensures t.wtStart <= t.queryStart && t.queryEnd <= t.wtEnd
  {}

  // ----- any content without child elements -----

  /** No tag reaches into the range. */
  ghost predicate Clear(tags: seq<Tag>, r: Range) {
    forall k :: 0 <= k < |tags| ==> tags[k].end <= r.start || r.end <= tags[k].start
  }

  lemma {:induction false} ClearConcat(a: seq<Tag>, b: seq<Tag>, r: Range)
    requires Clear(a, r) && Clear(b, r)
    ensures Clear(a + b, r)
  {}

  ghost predicate TagsIn(tags: seq<Tag>, lo: nat, hi: nat) {
    forall k :: 0 <= k < |tags| ==> lo <= tags[k].start && tags[k].end <= hi
  }

  lemma {:induction false} TagsInConcat(a: seq<Tag>, b: seq<Tag>, lo: nat, hi: nat)
    requires TagsIn(a, lo, hi) && TagsIn(b, lo, hi)
    ensures TagsIn(a + b, lo, hi)
  {}

  lemma {:induction false} TagsInWider(a: seq<Tag>, lo: nat, lo': nat, hi': nat, hi: nat)
    requires lo <= lo' && hi' <= hi && TagsIn(a, lo', hi')
    ensures TagsIn(a, lo, hi)
  {}

  lemma {:induction false} EventIn(n: Name, closing: bool, selfClosing: bool, start: nat, end: nat, lo: nat, hi: nat)
    requires lo <= start && end <= hi
    ensures TagsIn(Event(n, closing, selfClosing, start, end), lo, hi) && TagsIn([], lo, hi)
  {}

  lemma {:induction false} EventsIn(f: Forest, off: nat)
    ensures TagsIn(Events(f, off), off, off + |Print(f)|)
    decreases f
  {
    hide TagsIn, Event, PrintOpen, PrintEmpty, PrintClose, PrintLeaf;
    var hi := off + |Print(f)|;
    match f
    case Done => EventIn(Name(None, [], false), false, false, off, off, off, off);
    case LeafNode(l, rest) =>
      EventsIn(rest, LeafEnd(l, off));
      TagsInWider(Events(rest, LeafEnd(l, off)), off, LeafEnd(l, off), hi, hi);
    case Empty(h, rest) =>
      var end := EmptyEnd(h, off);
      EventsIn(rest, end);
      EmptySize(h, rest, off);
      TagsInWider(Events(rest, end), off, end, hi, hi);
      EventIn(h.name, false, true, off, end, off, hi);
      TagsInConcat(Event(h.name, false, true, off, end), Events(rest, end), off, hi);
    case Elem(h, kids, tail, rest) =>
      var inner, close, end := InnerAt(h, off), CloseAt(h, kids, off), EndAt(h, kids, tail, off);
      var a, k := Event(h.name, false, false, off, inner), Events(kids, inner);
      var c, r := Event(h.name, true, false, close, end), Events(rest, end);
      ElemSize(h, kids, tail, rest, off);
      EventsElem(h, kids, tail, rest, off);
      EventsIn(kids, inner);
      EventsIn(rest, end);
      TagsInWider(k, off, inner, close, hi);
      TagsInWider(r, off, end, hi, hi);
      EventIn(h.name, false, false, off, inner, off, hi);
      EventIn(h.name, true, false, close, end, off, hi);
      TagsInConcat(a, k, off, hi);
      TagsInConcat(a + k, c, off, hi);
      TagsInConcat(a + k + c, r, off, hi);
  }

  lemma {:induction false} ClearOutside(tags: seq<Tag>, lo: nat, hi: nat, r: Range)
    requires TagsIn(tags, lo, hi) && (hi <= r.start || r.end <= lo)
    ensures Clear(tags, r)
  {}

  lemma {:induction false} NoChildTags(f: Forest, off: nat)
    requires NoChildren(f)
    ensures Events(f, off) == [] && OwnKids(f) == [] && Own(f, off) == []
    decreases f
  {
    if f.LeafNode? {
      NoChildTags(f.rest, LeafEnd(f.leaf, off));
    }
  }

  lemma {:induction false} OwnBounds(f: Forest, off: nat, i: nat)
    requires Pairable(f) && i < |Own(f, off)|
    ensures off <= Own(f, off)[i].start && Own(f, off)[i].end <= off + |Print(f)|
  {
    hide Own, Print, Pairable;
    OwnApart(f, off);
  }

  /** No tag reaches into the range of a `w:t` without child elements. */
  lemma {:induction false} OwnClear(f: Forest, off: nat, i: nat)
    requires Pairable(f) && i < TextCount(f) && i < |Own(f, off)| && NoChildren(OwnKids(f)[i])
    ensures Clear(Events(f, off), Own(f, off)[i])
    decreases f, 1
  {
    hide Clear, Event, PrintOpen, PrintEmpty, PrintClose, PrintLeaf, IsText, NoChildren;
    match f
    case LeafNode(l, rest) => OwnClear(rest, LeafEnd(l, off), i);
    case Empty(h, rest) =>
      var end := EmptyEnd(h, off);
      var own := Event(h.name, false, true, off, end);
      EmptySize(h, rest, off);
      EventIn(h.name, false, true, off, end, off, end);
      EventsIn(rest, end);
      if IsText(h) && i == 0 {
        ClearOutside(own, off, end, Range(end, end));
        ClearOutside(Events(rest, end), end, end + |Print(rest)|, Range(end, end));
      } else {
        var j := if IsText(h) then i - 1 else i;
        OwnClear(rest, end, j);
        OwnBounds(rest, end, j);
        ClearOutside(own, off, end, Own(rest, end)[j]);
      }
      ClearConcat(own, Events(rest, end), Own(f, off)[i]);
    case Elem(h, kids, tail, rest) => OwnClearElem(f, off, i);
  }

  lemma {:induction false} OwnClearElem(f: Forest, off: nat, i: nat)
    requires f.Elem? && Pairable(f) && i < TextCount(f) && i < |Own(f, off)| && NoChildren(OwnKids(f)[i])
    ensures Clear(Events(f, off), Own(f, off)[i])
    decreases f, 0
  {
    hide Clear, Event, PrintOpen, PrintEmpty, PrintClose, PrintLeaf, IsText, NoChildren, Own, OwnKids, Print, Events, TagsIn;
    var h, kids, tail, rest := f.head, f.kids, f.closeTail, f.rest;
    var inner, close, end := InnerAt(h, off), CloseAt(h, kids, off), EndAt(h, kids, tail, off);
    var a, k := Event(h.name, false, false, off, inner), Events(kids, inner);
    var c, r := Event(h.name, true, false, close, end), Events(rest, end);
    var range := Own(f, off)[i];
    var j := if IsText(h) then i - 1 else i;
    ElemSize(h, kids, tail, rest, off);
    EventsElem(h, kids, tail, rest, off);
    OwnElem(h, kids, tail, rest, off);
    OwnKidsElem(h, kids, tail, rest);
    OwnCount(kids, inner);
    OwnCount(rest, end);
    EventIn(h.name, false, false, off, inner, off, inner);
    EventIn(h.name, true, false, close, end, close, end);
    EventsIn(kids, inner);
    EventsIn(rest, end);
    PairableParts(f);
    if IsText(h) && i == 0 {
      NoChildTags(kids, inner);
      ClearOutside(k, inner, inner, range);
      ClearOutside(r, end, end + |Print(rest)|, range);
    } else if j < TextCount(kids) {
      OwnClear(kids, inner, j);
      OwnBounds(kids, inner, j);
      ClearOutside(r, end, end + |Print(rest)|, range);
    } else {
      OwnClear(rest, end, j - TextCount(kids));
      OwnBounds(rest, end, j - TextCount(kids));
      ClearOutside(k, inner, close, range);
    }
    ClearOutside(a, off, inner, range);
    ClearOutside(c, close, end, range);
    ClearConcat(a, k, range);
    ClearConcat(a + k, c, range);
    ClearConcat(a + k + c, r, range);
  }

  lemma {:induction false} PairableParts(f: Forest)
    requires f.Elem? && Pairable(f)
    ensures Pairable(f.rest) && (!IsText(f.head) ==> Pairable(f.kids))
    ensures IsText(f.head) ==> TextCount(f.kids) == 0
  {
    hide IsText, OwnKids;
    if IsText(f.head) {
      NoTextKids(f.kids);
    }
  }

  lemma {:induction false} NoTextKids(f: Forest)
    requires !HasText(f)
    ensures OwnKids(f) == []
  {
    hide IsText;
    match f
    case Done =>
    case LeafNode(_, rest) => NoTextKids(rest);
    case Empty(_, rest) => NoTextKids(rest);
    case Elem(_, kids, _, rest) =>
      NoTextKids(kids);
      NoTextKids(rest);
  }

  /**
   Whatever stands in the chosen `w:t` besides child elements - entities, comments, CDATA sections, several texts -: the
   expected document scans to the very same tags, names included, and so to the same located paragraphs.
   */
  lemma {:induction false} ExpectedKeepsTags(lib: Library, f: Forest, others: seq<string>, s: Selection, i: nat)
    requires WellFormed(f) && Pairable(f) && Truthful(lib, f)
    requires IsSelection(lib, Print(f), others, s) && s.Selected?
    requires i < TextCount(f) && i < |Own(f, 0)| && NoChildren(OwnKids(f)[i])
    requires Own(f, 0)[i] == Range(s.target.wtStart, s.target.wtEnd)
    ensures Scan(s.target.expected, 0) == Scan(Print(f), 0)
  {
    hide Scan, GoodTarget, WellFormed, Pairable, IsSelection, Events, OwnKids, Own, Print, Clear;
    var t, doc := s.target, Print(f);
    SelectionIsGood(lib, doc, others, s);
    ExpectedDocument(doc, t);
    ScanUndoesPrint(f);
    OwnClear(f, 0, i);
    WithinRange(doc, t);
    ClearOf(Scan(doc, 0), Own(f, 0)[i], t);
    var before, after := Scan(doc, 0), Scan(t.expected, 0);
    assert forall k :: 0 <= k < |before| ==> after[k] == before[k];
  }

  lemma {:induction false} ClearOf(tags: seq<Tag>, r: Range, t: EditTarget)
    requires Clear(tags, r) && r.start <= t.queryStart && t.queryEnd <= r.end
    ensures forall k :: 0 <= k < |tags| ==> tags[k].end <= t.queryStart || t.queryEnd <= tags[k].start
  {}
}
