/** The candidates of `select_target` are tried in document order, so the chosen one is the first safe one there. */
module TargetOrder {
  import opened Sequences
  import opened Markup
  import opened LocatorTrees
  import opened LocatorResults
  import opened TextRanges
  import opened Queries
  import opened Target

  // ----- a well-behaved run holds no further run -----

  lemma {:induction false} AsciiBytes(s: string)
    requires s != [] && forall i :: 0 <= i < |s| ==> Alnum(s[i])
    ensures |Utf8(s)| == |s| && Utf8(s)[0] == s[0] as int
    decreases |s|
  {
    if |s| > 1 {
      AsciiBytes(s[1..]);
    } else {
      assert s[1..] == [] && Utf8([]) == [];
    }
  }

  lemma {:induction false} InlineNames(n: seq<byte>)
    requires n in KNOWN_RUN_INLINE
    ensures |n| != 0 && (|n| == 1 ==> n[0] == 't' as int) && (|n| == 9 ==> n[0] == 's' as int)
  {
    hide Utf8;
    AsciiBytes("t");
    AsciiBytes("delText");
    AsciiBytes("tab");
    AsciiBytes("br");
    AsciiBytes("cr");
    AsciiBytes("noBreakHyphen");
    AsciiBytes("softHyphen");
    AsciiBytes("sym");
    AsciiBytes("commentReference");
    AsciiBytes("footnoteRef");
    AsciiBytes("endnoteRef");
    AsciiBytes("annotationRef");
    AsciiBytes("separator");
    AsciiBytes("continuationSeparator");
    AsciiBytes("lastRenderedPageBreak");
  }

  lemma {:induction false} InlineIsOpaque(h: TagHead)
    requires RunChild(h.name)
    ensures !IsRun(h) && !Transparent(h)
  {
    hide Utf8, KNOWN_RUN_INLINE;
    AsciiBytes("r");
    AsciiBytes("hyperlink");
    AsciiBytes("rPr");
    if h.name.local in KNOWN_RUN_INLINE {
      InlineNames(h.name.local);
    }
  }

  lemma {:induction false} NoChain(f: Forest, idx: nat)
    ensures RunTexts(f, idx, false) == []
    decreases f
  {
    match f {
      case Done =>
      case LeafNode(_, rest) => NoChain(rest, idx);
      case Empty(h, rest) => NoChain(rest, if IsText(h) then idx + 1 else idx);
      case Elem(h, kids, _, rest) =>
        var inner := if IsText(h) then idx + 1 else idx;
        NoChain(kids, inner);
        NoChain(rest, inner + TextCount(kids));
    }
  }

  lemma {:induction false} NoRunInside(kids: Forest, idx: nat)
    requires RunChildrenOk(kids)
    ensures RunTexts(kids, idx, true) == []
    decreases kids
  {
    hide Utf8, KNOWN_RUN_INLINE, RunChild, IsRun, Transparent, IsText, TextCount, ChildTexts;
    match kids {
      case Done =>
      case LeafNode(_, rest) => NoRunInside(rest, idx);
      case Empty(h, rest) => NoRunInside(rest, if IsText(h) then idx + 1 else idx);
      case Elem(h, inside, _, rest) =>
        var inner := if IsText(h) then idx + 1 else idx;
        InlineIsOpaque(h);
        NoChain(inside, inner);
        NoRunInside(rest, inner + TextCount(inside));
    }
  }

  // ----- texts, paragraphs, candidates -----

  /** The references lie in `[lo, hi)` and grow. */
  ghost predicate Growing(refs: seq<TextRef>, lo: nat, hi: nat) {
    && (forall i :: 0 <= i < |refs| ==> lo <= refs[i].index < hi)
    && (forall i, j :: 0 <= i < j < |refs| ==> refs[i].index < refs[j].index)
  }

  lemma {:induction false} GrowingConcat(a: seq<TextRef>, b: seq<TextRef>, lo: nat, mid: nat, mid': nat, hi: nat)
    requires lo <= mid <= mid' <= hi && Growing(a, lo, mid) && Growing(b, mid', hi)
    ensures Growing(a + b, lo, hi)
  {}

  lemma {:induction false} ChildTextsGrow(f: Forest, idx: nat)
    ensures Growing(ChildTexts(f, idx), idx, idx + TextCount(f))
    decreases f
  {
    match f {
      case Done =>
      case LeafNode(_, rest) => ChildTextsGrow(rest, idx);
      case Empty(h, rest) =>
        if IsText(h) {
          ChildTextsGrow(rest, idx + 1);
          GrowingConcat([TextRef(idx, Done)], ChildTexts(rest, idx + 1), idx, idx + 1, idx + 1, idx + 1 + TextCount(rest));
        } else {
          ChildTextsGrow(rest, idx);
        }
      case Elem(h, kids, tail, rest) =>
        CountElem(h, kids, tail, rest);
        if IsText(h) {
          var after := idx + 1 + TextCount(kids);
          ChildTextsGrow(rest, after);
          GrowingConcat([TextRef(idx, kids)], ChildTexts(rest, after), idx, idx + 1, after, after + TextCount(rest));
        } else {
          ChildTextsGrow(rest, idx + TextCount(kids));
        }
    }
  }

  lemma {:induction false} CountElem(h: TagHead, kids: Forest, tail: seq<byte>, rest: Forest)
    ensures TextCount(Elem(h, kids, tail, rest)) == (if IsText(h) then 1 else 0) + TextCount(kids) + TextCount(rest)
  {}

  lemma {:induction false} RunTextsGrow(f: Forest, idx: nat, chain: bool)
    ensures Growing(RunTexts(f, idx, chain), idx, idx + TextCount(f))
    decreases f, 1
  {
    hide IsRun, RunChildrenOk, Transparent, ChildTexts, TextCount, IsText;
    match f {
      case Done =>
      case LeafNode(l, rest) =>
        RunTextsGrow(rest, idx, chain);
        CountEdges(f);
      case Empty(h, rest) =>
        RunTextsGrow(rest, if IsText(h) then idx + 1 else idx, chain);
        CountEdges(f);
      case Elem(h, kids, tail, rest) =>
        RunTextsGrowElem(h, kids, tail, rest, idx, chain);
    }
  }

  lemma {:induction false} RunTextsGrowElem(h: TagHead, kids: Forest, tail: seq<byte>, rest: Forest, idx: nat, chain: bool)
    ensures var f := Elem(h, kids, tail, rest); Growing(RunTexts(f, idx, chain), idx, idx + TextCount(f))
    decreases Elem(h, kids, tail, rest), 0
  {
    hide IsRun, RunChildrenOk, Transparent, ChildTexts, TextCount, IsText, Growing, RunTexts;
    var inner := if IsText(h) then idx + 1 else idx;
    var after := inner + TextCount(kids);
    CountElem(h, kids, tail, rest);
    RunTextsElem(h, kids, tail, rest, idx, chain);
    OwnAndBelow(h, kids, inner, chain);
    RunTextsGrow(rest, after, chain);
    var own := if IsRun(h) && RunChildrenOk(kids) && chain then ChildTexts(kids, inner) else [];
    var below := RunTexts(kids, inner, chain && Transparent(h));
    GrowingFrom(own + below, idx, inner, after);
    GrowingConcat(own + below, RunTexts(rest, after, chain), idx, after, after, after + TextCount(rest));
  }

  lemma {:induction false} RunTextsElem(h: TagHead, kids: Forest, tail: seq<byte>, rest: Forest, idx: nat, chain: bool)
    ensures var inner := if IsText(h) then idx + 1 else idx;
            var own := if IsRun(h) && RunChildrenOk(kids) && chain then ChildTexts(kids, inner) else [];
            RunTexts(Elem(h, kids, tail, rest), idx, chain)
            == own + RunTexts(kids, inner, chain && Transparent(h)) + RunTexts(rest, inner + TextCount(kids), chain)
  {
    hide IsRun, RunChildrenOk, Transparent, ChildTexts, TextCount, IsText;
  }

  lemma {:induction false} GrowingFrom(refs: seq<TextRef>, lo: nat, lo': nat, hi: nat)
    requires lo <= lo' && Growing(refs, lo', hi)
    ensures Growing(refs, lo, hi)
  {}

  /** Of a run's own texts and those of what it holds, one list is empty. */
  lemma {:induction false} OwnAndBelow(h: TagHead, kids: Forest, inner: nat, chain: bool)
    ensures var own := if IsRun(h) && RunChildrenOk(kids) && chain then ChildTexts(kids, inner) else [];
            Growing(own + RunTexts(kids, inner, chain && Transparent(h)), inner, inner + TextCount(kids))
    decreases kids, 2
  {
    hide IsRun, RunChildrenOk, Transparent, ChildTexts, TextCount, RunTexts;
    if IsRun(h) && RunChildrenOk(kids) && chain {
      ChildTextsGrow(kids, inner);
      NoRunInside(kids, inner);
      RunIsTransparent(h);
      assert ChildTexts(kids, inner) + [] == ChildTexts(kids, inner);
    } else {
      RunTextsGrow(kids, inner, chain && Transparent(h));
      assert [] + RunTexts(kids, inner, chain && Transparent(h)) == RunTexts(kids, inner, chain && Transparent(h));
    }
  }

  lemma {:induction false} CountEdges(f: Forest)
    requires f.LeafNode? || f.Empty?
    ensures TextCount(f) == TextCount(f.rest) + if f.Empty? && IsText(f.head) then 1 else 0
  {}

  lemma {:induction false} RunIsTransparent(h: TagHead)
    requires IsRun(h)
    ensures Transparent(h)
  {}

  /** The texts of an earlier paragraph come before those of a later one. */
  ghost predicate ParasApart(paras: seq<Para>, lo: nat) {
    && (forall i :: 0 <= i < |paras| ==> lo <= paras[i].first)
    && (forall i, j :: 0 <= i < j < |paras| ==> paras[i].first + TextCount(paras[i].kids) <= paras[j].first)
  }

  lemma {:induction false} ApartCons(p: Para, paras: seq<Para>, lo: nat, next: nat)
    requires lo <= p.first && p.first + TextCount(p.kids) <= next && ParasApart(paras, next)
    ensures ParasApart([p] + paras, lo)
  {
    hide TextCount;
  }

  lemma {:induction false} ApartFrom(paras: seq<Para>, lo: nat, lo': nat)
    requires lo <= lo' && ParasApart(paras, lo')
    ensures ParasApart(paras, lo) && [] + paras == paras
  {
    hide TextCount;
  }

  lemma {:induction false} NothingBelow()
    ensures TextCount(Done) == 0
  {}

  lemma {:induction false} ParasOrdered(f: Forest, off: nat, idx: nat)
    ensures ParasApart(Paras(f, off, idx), idx)
    decreases f
  {
    hide IsText, TextCount, ParasApart, InnerAt, EndAt, EmptyEnd, LeafEnd;
    match f
    case Done => NoParas(idx);
    case LeafNode(l, rest) => ParasOrdered(rest, LeafEnd(l, off), idx);
    case Empty(h, rest) =>
      var end, next := EmptyEnd(h, off), if IsText(h) then idx + 1 else idx;
      ParasOrdered(rest, end, next);
      ApartFrom(Paras(rest, end, next), idx, next);
      NothingBelow();
      ApartCons(Para(Span(off, end, end, true), Done, end, idx), Paras(rest, end, next), idx, next);
    case Elem(h, kids, tail, rest) =>
      var inner, end := InnerAt(h, off), EndAt(h, kids, tail, off);
      var before := if IsText(h) then idx + 1 else idx;
      var next := before + TextCount(kids);
      ParasOrdered(rest, end, next);
      ApartFrom(Paras(rest, end, next), idx, next);
      ApartCons(Para(Span(off, inner, end, false), kids, inner, before), Paras(rest, end, next), idx, next);
  }

  lemma {:induction false} NoParas(idx: nat)
    ensures ParasApart([], idx)
  {}

  /** Candidates in order: by paragraph, and by `w:t` element. */
  ghost predicate InOrder(cands: seq<Cand>) {
    forall i, j :: 0 <= i < j < |cands| ==> cands[i].ordinal <= cands[j].ordinal && cands[i].index <= cands[j].index
  }

  /** All candidates name this paragraph and a `w:t` in `[lo, hi)`. */
  ghost predicate Of(cands: seq<Cand>, ordinal: nat, lo: nat, hi: nat) {
    forall i :: 0 <= i < |cands| ==> cands[i].ordinal == ordinal && lo <= cands[i].index < hi
  }

  lemma {:induction false} RefCandsOrdered(lib: Library, ordinal: nat, refs: seq<TextRef>, lo: nat, hi: nat)
    requires Growing(refs, lo, hi)
    ensures InOrder(RefCands(lib, ordinal, refs)) && Of(RefCands(lib, ordinal, refs), ordinal, lo, hi)
    decreases |refs|
  {
    hide CandidateQueries;
    if refs != [] {
      var here := QueryCands(ordinal, refs[0].index, CandidateQueries(lib.text(refs[0].kids)));
      assert Of(here, ordinal, refs[0].index, refs[0].index + 1);
      assert Growing(refs[1..], refs[0].index, hi);
      RefCandsOrdered(lib, ordinal, refs[1..], refs[0].index, hi);
    }
  }

  /** All candidates name a paragraph from `ordinal` on and a `w:t` from `lo` on. */
  ghost predicate Beyond(cands: seq<Cand>, ordinal: nat, lo: nat) {
    forall i :: 0 <= i < |cands| ==> ordinal <= cands[i].ordinal && lo <= cands[i].index
  }

  lemma {:induction false} AllCandsOrdered(lib: Library, ordinal: nat, paras: seq<Para>, lo: nat)
    requires ParasApart(paras, lo)
    ensures InOrder(AllCands(lib, ordinal, paras)) && Beyond(AllCands(lib, ordinal, paras), ordinal, lo)
    decreases |paras|
  {
    hide RunTexts, ParagraphFlags, RefCands, TextCount;
    if paras != [] {
      var p := paras[0];
      var hi := p.first + TextCount(p.kids);
      RunTextsGrow(p.kids, p.first, true);
      RefCandsOrdered(lib, ordinal, RunTexts(p.kids, p.first, true), p.first, hi);
      assert ParasApart(paras[1..], hi);
      AllCandsOrdered(lib, ordinal + 1, paras[1..], hi);
    }
  }

  /**
   For every tree: the candidates are listed paragraph by paragraph and, inside one, `w:t` by `w:t` in document order.
   With `Target.FirstSafeIs` the selected query is safe and no candidate that stands earlier is.
   */
  lemma {:induction false} CandidatesInOrder(lib: Library, root: Forest)
    ensures InOrder(AllCands(lib, 0, Paragraphs(root)))
  {
    hide Paras, AllCands;
    var b := BoundBody(root, 0, 0);
    if b.Some? {
      ParasOrdered(b.value.0, b.value.1, b.value.2);
      AllCandsOrdered(lib, 0, Paragraphs(root), b.value.2);
    } else {
      AllCandsOrdered(lib, 0, [], 0);
    }
  }
}
