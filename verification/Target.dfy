/** `select_target`: the first safe query of a document, where it stands, and the document expected after the edit. */
module Target {
  import opened Sequences
  import opened Scanner
  import opened Markup
  import opened Locator
  import opened LocatorTrees
  import opened LocatorResults
  import opened TextRanges
  import opened TextPairing
  import opened Queries

  /**
   The libraries the oracle leans on, as arbitrary functions: the element tree a parse yields, the callbacks of the
   byte-offset parser and whether it finished, the text of an element with given content, and case folding.
   */
  datatype Library = Library(parse: seq<byte> -> Option<Forest>, calls: seq<byte> -> (seq<Callback>, bool),
                             text: Forest -> string, fold: string -> string)

  // ----- local names -----

  const OPAQUE_LOCALS: set<seq<byte>> :=
    {Utf8("drawing"), Utf8("pict"), Utf8("object"), Utf8("fldSimple"), Utf8("oMath"), Utf8("oMathPara"),
     Utf8("sdt"), Utf8("smartTag"), Utf8("proofErr"), Utf8("txbxContent"), Utf8("AlternateContent")}

  const FIELD_LOCALS: set<seq<byte>> := {Utf8("fldChar"), Utf8("instrText"), Utf8("fldSimple")}

  const REVISION_LOCALS: set<seq<byte>> :=
    {Utf8("ins"), Utf8("del"), Utf8("moveFrom"), Utf8("moveTo"), Utf8("delText")}

  const KNOWN_RUN_INLINE: set<seq<byte>> :=
    {Utf8("t"), Utf8("delText"), Utf8("tab"), Utf8("br"), Utf8("cr"), Utf8("noBreakHyphen"), Utf8("softHyphen"),
     Utf8("sym"), Utf8("commentReference"), Utf8("footnoteRef"), Utf8("endnoteRef"), Utf8("annotationRef"),
     Utf8("separator"), Utf8("continuationSeparator"), Utf8("lastRenderedPageBreak")}

  const SDT_LOCALS: set<seq<byte>> := {Utf8("sdt")}
  const RUN_LOCAL: seq<byte> := Utf8("r")
  const LINK_LOCAL: seq<byte> := Utf8("hyperlink")
  const RPR_LOCAL: seq<byte> := Utf8("rPr")

  // ----- the element tree as select_target reads it -----

  predicate HasLocal(f: Forest, names: set<seq<byte>>) {
    match f
    case Done => false
    case LeafNode(_, rest) => HasLocal(rest, names)
    case Empty(h, rest) => (h.name.w && h.name.local in names) || HasLocal(rest, names)
    case Elem(h, kids, _, rest) =>
      (h.name.w && h.name.local in names) || HasLocal(kids, names) || HasLocal(rest, names)
  }

  datatype Flags = Flags(opaqueContent: bool, revision: bool, field: bool, sdt: bool) {
    predicate Any() { opaqueContent || revision || field || sdt }
  }

  /** `_paragraph_flags`, from the content of the paragraph. */
  function ParagraphFlags(kids: Forest): Flags {
    Flags(HasLocal(kids, OPAQUE_LOCALS), HasLocal(kids, REVISION_LOCALS), HasLocal(kids, FIELD_LOCALS),
          HasLocal(kids, SDT_LOCALS))
  }

  predicate RunChild(n: Name) {
    !n.w || n.local == RPR_LOCAL || n.local in KNOWN_RUN_INLINE
  }

  /** `_run_children_ok` */
  predicate RunChildrenOk(kids: Forest) {
    match kids
    case Done => true
    case LeafNode(_, rest) => RunChildrenOk(rest)
    case Empty(h, rest) => RunChild(h.name) && RunChildrenOk(rest)
    case Elem(h, _, _, rest) => RunChild(h.name) && RunChildrenOk(rest)
  }

  /** The number of `w:t` elements. */
  function TextCount(f: Forest): nat {
    |OwnKids(f)|
  }

  /** A `w:t` element: its place among all of them in document order, and its content. */
  datatype TextRef = TextRef(index: nat, kids: Forest)

  /** The `w:t` children; `idx` counts the `w:t` elements before. */
  function ChildTexts(f: Forest, idx: nat): seq<TextRef> {
    match f
    case Done => []
    case LeafNode(_, rest) => ChildTexts(rest, idx)
    case Empty(h, rest) =>
      if IsText(h) then [TextRef(idx, Done)] + ChildTexts(rest, idx + 1) else ChildTexts(rest, idx)
    case Elem(h, kids, _, rest) =>
      if IsText(h) then [TextRef(idx, kids)] + ChildTexts(rest, idx + 1 + TextCount(kids))
      else ChildTexts(rest, idx + TextCount(kids))
  }

  predicate IsRun(h: TagHead) {
    h.name.w && h.name.local == RUN_LOCAL
  }

  /** What may stand between a paragraph and its text. */
  predicate Transparent(h: TagHead) {
    h.name.w && (h.name.local == RUN_LOCAL || h.name.local == LINK_LOCAL)
  }

  /**
   The `w:t` children of the well-behaved runs below, run by run in document order; `chain` says that everything
   between here and the paragraph is a run or a hyperlink.
   */
  function RunTexts(f: Forest, idx: nat, chain: bool): seq<TextRef> {
    match f
    case Done => []
    case LeafNode(_, rest) => RunTexts(rest, idx, chain)
    case Empty(h, rest) => RunTexts(rest, if IsText(h) then idx + 1 else idx, chain)
    case Elem(h, kids, _, rest) =>
      var inner := if IsText(h) then idx + 1 else idx;
      (if IsRun(h) && RunChildrenOk(kids) && chain then ChildTexts(kids, inner) else [])
      + RunTexts(kids, inner, chain && Transparent(h))
      + RunTexts(rest, inner + TextCount(kids), chain)
  }

  /** A paragraph of the parsed tree: its bytes, its content, and how many `w:t` elements come before it. */
  datatype Para = Para(span: Span, kids: Forest, at: nat, first: nat)

  function Paras(f: Forest, off: nat, idx: nat): seq<Para> {
    match f
    case Done => []
    case LeafNode(l, rest) => Paras(rest, LeafEnd(l, off), idx)
    case Empty(h, rest) =>
      var end := EmptyEnd(h, off);
      (if h.name.w && h.name.local == PARA then [Para(Span(off, end, end, true), Done, end, idx)] else [])
      + Paras(rest, end, if IsText(h) then idx + 1 else idx)
    case Elem(h, kids, tail, rest) =>
      var inner, end := InnerAt(h, off), EndAt(h, kids, tail, off);
      var before := if IsText(h) then idx + 1 else idx;
      (if h.name.w && h.name.local == PARA then [Para(Span(off, inner, end, false), kids, inner, before)] else [])
      + Paras(rest, end, before + TextCount(kids))
  }

  /** The content of the first bound `body`, its offset and the number of `w:t` elements before it. */
  function BoundBody(f: Forest, off: nat, idx: nat): Option<(Forest, nat, nat)> {
    match f
    case Done => None
    case LeafNode(l, rest) => BoundBody(rest, LeafEnd(l, off), idx)
    case Empty(h, rest) =>
      if h.name.w && h.name.local == BODY then Some((Done, EmptyEnd(h, off), idx))
      else BoundBody(rest, EmptyEnd(h, off), if IsText(h) then idx + 1 else idx)
    case Elem(h, kids, tail, rest) =>
      var before := if IsText(h) then idx + 1 else idx;
      if h.name.w && h.name.local == BODY then Some((kids, InnerAt(h, off), before))
      else
        var b := BoundBody(kids, InnerAt(h, off), before);
        if b.Some? then b else BoundBody(rest, EndAt(h, kids, tail, off), before + TextCount(kids))
  }

  /** `_paragraphs` */
  function Paragraphs(root: Forest): seq<Para> {
    var b := BoundBody(root, 0, 0);
    if b.None? then [] else Paras(b.value.0, b.value.1, b.value.2)
  }

  function Texts(lib: Library, kids: seq<Forest>): seq<string> {
    seq(|kids|, i requires 0 <= i < |kids| => lib.text(kids[i]))
  }

  function Join(parts: seq<string>): string {
    if parts == [] then [] else parts[0] + Join(parts[1..])
  }

  // ----- the safety test -----

  function FoldedCount(lib: Library, texts: seq<string>, folded: string): nat {
    if texts == [] then 0 else PyCount(lib.fold(texts[0]), folded) + FoldedCount(lib, texts[1..], folded)
  }

  predicate InSome(lib: Library, texts: seq<string>, folded: string) {
    exists i :: 0 <= i < |texts| && Find(lib.fold(texts[i]), folded, 0) >= 0
  }

  /** Python's `doc[a:b]` */
  function PySlice(doc: seq<byte>, a: nat, b: nat): seq<byte> {
    var hi := if b > |doc| then |doc| else b;
    if a < hi then doc[a..hi] else []
  }

  /** What the candidates of one document are tested against. */
  datatype View = View(lib: Library, doc: seq<byte>, texts: seq<string>, paraTexts: seq<string>, others: seq<string>,
                       ranges: seq<Range>)

  datatype Cand = Cand(ordinal: nat, index: nat, query: string)

  predicate Safe(v: View, c: Cand) {
    var qb, folded := Utf8(c.query), v.lib.fold(c.query);
    && FoldedCount(v.lib, v.texts, folded) == 1
    && FoldedCount(v.lib, v.paraTexts, folded) == 1
    && !InSome(v.lib, v.others, folded)
    && PyCount(v.doc, qb) == 1
    && c.index < |v.ranges|
    && PyCount(PySlice(v.doc, v.ranges[c.index].start, v.ranges[c.index].end), qb) == 1
  }

  // ----- the candidates in the order they are tried -----

  function QueryCands(ordinal: nat, index: nat, queries: seq<string>): seq<Cand> {
    seq(|queries|, k requires 0 <= k < |queries| => Cand(ordinal, index, queries[k]))
  }

  function RefCands(lib: Library, ordinal: nat, refs: seq<TextRef>): seq<Cand> {
    if refs == [] then []
    else QueryCands(ordinal, refs[0].index, CandidateQueries(lib.text(refs[0].kids))) + RefCands(lib, ordinal, refs[1..])
  }

  function ParaCands(lib: Library, ordinal: nat, p: Para): seq<Cand> {
    if ParagraphFlags(p.kids).Any() then [] else RefCands(lib, ordinal, RunTexts(p.kids, p.first, true))
  }

  function AllCands(lib: Library, ordinal: nat, paras: seq<Para>): seq<Cand>
    decreases |paras|
  {
    if paras == [] then [] else ParaCands(lib, ordinal, paras[0]) + AllCands(lib, ordinal + 1, paras[1..])
  }

  /** The first safe one. */
  function FirstSafe(v: View, cands: seq<Cand>): Option<Cand> {
    if cands == [] then None else if Safe(v, cands[0]) then Some(cands[0]) else FirstSafe(v, cands[1..])
  }

  lemma {:induction false} FirstSafeConcat(v: View, a: seq<Cand>, b: seq<Cand>)
    ensures FirstSafe(v, a + b) == if FirstSafe(v, a).Some? then FirstSafe(v, a) else FirstSafe(v, b)
    decreases |a|
  {
    if a == [] {
      assert a + b == b;
    } else {
      assert (a + b)[1..] == a[1..] + b;
      FirstSafeConcat(v, a[1..], b);
    }
  }

  /** The chosen candidate is safe and no candidate tried before it is. */
  lemma {:induction false} FirstSafeIs(v: View, cands: seq<Cand>)
    ensures match FirstSafe(v, cands)
            case None => forall k :: 0 <= k < |cands| ==> !Safe(v, cands[k])
            case Some(c) => exists k :: 0 <= k < |cands| && cands[k] == c && Safe(v, c)
                                && forall j :: 0 <= j < k ==> !Safe(v, cands[j])
    decreases |cands|
  {
    if cands != [] {
      hide Safe;
      FirstSafeIs(v, cands[1..]);
      if !Safe(v, cands[0]) {
        var rest := FirstSafe(v, cands[1..]);
        if rest.Some? {
          var k :| 0 <= k < |cands[1..]| && cands[1..][k] == rest.value && forall j :: 0 <= j < k ==> !Safe(v, cands[1..][j]);
          assert cands[k + 1] == rest.value;
          forall j | 0 <= j < k + 1 ensures !Safe(v, cands[j]) {
            if j > 0 {
              assert cands[j] == cands[1..][j - 1];
            }
          }
        } else {
          forall j | 0 <= j < |cands| ensures !Safe(v, cands[j]) {
            if j > 0 {
              assert cands[j] == cands[1..][j - 1];
            }
          }
        }
      } else {
        assert cands[0] == FirstSafe(v, cands).value;
      }
    }
  }

  // ----- select_target -----

  datatype EditTarget = EditTarget(paragraphId: Option<nat>, ordinal: nat, wtStart: nat, wtEnd: nat,
                                   queryStart: nat, queryEnd: nat, query: string, replacement: string,
                                   expected: seq<byte>)

  datatype Refusal = Unparseable | LocatorFailed | RangeMismatch | DirectMismatch | NoSafeTarget

  datatype Selection = Selected(target: EditTarget) | Refused(why: Refusal)

  function ViewOf(lib: Library, doc: seq<byte>, others: seq<string>, root: Forest, ranges: seq<Range>): View {
    var paras := Paragraphs(root);
    View(lib, doc, Texts(lib, OwnKids(root)),
         seq(|paras|, i requires 0 <= i < |paras| => Join(Texts(lib, OwnKids(paras[i].kids)))), others, ranges)
  }

  /** The target built from a safe candidate, and the refusals in the order they are tried. */
  ghost predicate IsSelection(lib: Library, doc: seq<byte>, others: seq<string>, s: Selection) {
    var root := lib.parse(doc);
    if root.None? then s == Refused(Unparseable)
    else
      var located := Locate(Scan(doc, 0));
      if located.None? then s == Refused(LocatorFailed)
      else
        var ranges := RangesOf(doc, lib.calls(doc).0, lib.calls(doc).1, TextCount(root.value));
        if ranges.None? then s == Refused(RangeMismatch)
        else
          var paras, entries := Paragraphs(root.value), Directs(located.value);
          if |entries| != |paras| then s == Refused(DirectMismatch)
          else
            var v := ViewOf(lib, doc, others, root.value, ranges.value);
            match FirstSafe(v, AllCands(lib, 0, paras))
            case None => s == Refused(NoSafeTarget)
            case Some(c) =>
              && s.Selected? && c.ordinal < |entries| && c.index < |ranges.value|
              && IsTarget(doc, c, ranges.value[c.index], entries[c.ordinal].id, s.target)
  }

  ghost predicate IsTarget(doc: seq<byte>, c: Cand, range: Range, id: Option<nat>, t: EditTarget) {
    var qb := Utf8(c.query);
    && t.query == c.query && t.query != [] && t.replacement == ReplacementFor(c.query)
    && t.paragraphId == id && t.ordinal == c.ordinal
    && t.wtStart == range.start && t.wtEnd == range.end
    && t.queryStart == range.start + Find(PySlice(doc, range.start, range.end), qb, 0)
    && t.queryEnd == t.queryStart + |qb| <= |doc|
    && t.expected == doc[..t.queryStart] + Utf8(t.replacement) + doc[t.queryEnd..]
  }

  lemma {:induction false} CandsQueries(lib: Library, ordinal: nat, refs: seq<TextRef>, k: nat)
    requires k < |refs|
    ensures RefCands(lib, ordinal, refs[k..])
         == QueryCands(ordinal, refs[k].index, CandidateQueries(lib.text(refs[k].kids))) + RefCands(lib, ordinal, refs[k + 1..])
  {
    assert refs[k..][1..] == refs[k + 1..];
  }

  /** One candidate, tested as the source tests it. */
  method TryQuery(v: View, c: Cand, id: Option<nat>) returns (t: Option<EditTarget>)
    requires IsQuery(c.query) && c.index < |v.ranges|
    ensures t.Some? <==> Safe(v, c)
    ensures t.Some? ==> IsTarget(v.doc, c, v.ranges[c.index], id, t.value)
  {
    hide Utf8, ReplacementFor, QueryChars;
    var qb, folded := Utf8(c.query), v.lib.fold(c.query);
    if FoldedCount(v.lib, v.texts, folded) != 1 {
      return None;
    }
    if FoldedCount(v.lib, v.paraTexts, folded) != 1 {
      return None;
    }
    if InSome(v.lib, v.others, folded) {
      return None;
    }
    if PyCount(v.doc, qb) != 1 {
      return None;
    }
    var innerStart, innerEnd := v.ranges[c.index].start, v.ranges[c.index].end;
    var inner := PySlice(v.doc, innerStart, innerEnd);
    if PyCount(inner, qb) != 1 {
      return None;
    }
    ReplacementOfQuery(c.query);
    CountOne(inner, qb);
    var queryStart := innerStart + Find(inner, qb, 0);
    var queryEnd := queryStart + |qb|;
    var replacement := ReplacementFor(c.query);
    var rb := Utf8(replacement);
    assert |rb| == |qb|;
    var expected := v.doc[..queryStart] + rb + v.doc[queryEnd..];
    t := Some(EditTarget(id, c.ordinal, innerStart, innerEnd, queryStart, queryEnd, c.query, replacement, expected));
  }

  ghost predicate Finds(v: View, cands: seq<Cand>, id: Option<nat>, t: Option<EditTarget>) {
    match FirstSafe(v, cands)
    case None => t.None?
    case Some(c) => t.Some? && c.index < |v.ranges| && IsTarget(v.doc, c, v.ranges[c.index], id, t.value)
  }

  lemma {:induction false} FirstSafeCons(v: View, cands: seq<Cand>, k: nat)
    requires k <= |cands|
    ensures FirstSafe(v, cands[k..]) ==
            if k == |cands| then None else if Safe(v, cands[k]) then Some(cands[k]) else FirstSafe(v, cands[k + 1..])
    ensures cands[0..] == cands
  {
    if k < |cands| {
      assert cands[k..][1..] == cands[k + 1..];
    }
  }

  /** The candidates of one `w:t`. */
  method TryText(v: View, ordinal: nat, r: TextRef, id: Option<nat>) returns (t: Option<EditTarget>)
    requires r.index < |v.ranges|
    ensures Finds(v, QueryCands(ordinal, r.index, CandidateQueries(v.lib.text(r.kids))), id, t)
  {
    hide FirstSafe, Safe, IsTarget, CandidateQueries, IsQuery;
    var queries := CandidateQueries(v.lib.text(r.kids));
    CandidatesAreTiles(v.lib.text(r.kids));
    ghost var cands := QueryCands(ordinal, r.index, queries);
    FirstSafeCons(v, cands, 0);
    for k := 0 to |queries|
      invariant FirstSafe(v, cands) == FirstSafe(v, cands[k..])
    {
      FirstSafeCons(v, cands, k);
      t := TryQuery(v, Cand(ordinal, r.index, queries[k]), id);
      if t.Some? {
        return;
      }
    }
    FirstSafeCons(v, cands, |queries|);
    t := None;
  }

  /** The texts of one paragraph. */
  method TryParagraph(v: View, ordinal: nat, p: Para, id: Option<nat>) returns (t: Option<EditTarget>)
    requires forall r :: r in RunTexts(p.kids, p.first, true) ==> r.index < |v.ranges|
    ensures Finds(v, ParaCands(v.lib, ordinal, p), id, t)
  {
    hide FirstSafe, Safe, IsTarget, CandidateQueries, RunTexts, ParagraphFlags;
    FirstSafeNone(v);
    if ParagraphFlags(p.kids).Any() {
      return None;
    }
    var refs := RunTexts(p.kids, p.first, true);
    assert refs[0..] == refs;
    for k := 0 to |refs|
      invariant FirstSafe(v, ParaCands(v.lib, ordinal, p)) == FirstSafe(v, RefCands(v.lib, ordinal, refs[k..]))
    {
      var r := refs[k];
      assert r in refs;
      CandsQueries(v.lib, ordinal, refs, k);
      FirstSafeConcat(v, QueryCands(ordinal, r.index, CandidateQueries(v.lib.text(r.kids))),
                      RefCands(v.lib, ordinal, refs[k + 1..]));
      t := TryText(v, ordinal, r, id);
      if t.Some? {
        return;
      }
    }
    t := None;
  }

  lemma {:induction false} FirstSafeNone(v: View)
    ensures FirstSafe(v, []) == None
  {}

  // ----- every index a candidate carries is that of its element -----

  /** Each reference carries the index and the content of its element. */
  ghost predicate RefsIn(refs: seq<TextRef>, own: seq<Forest>, idx: nat) {
    forall r :: r in refs ==> idx <= r.index < idx + |own| && own[r.index - idx] == r.kids
  }

  lemma {:induction false} RefsShift(refs: seq<TextRef>, head: seq<Forest>, own: seq<Forest>, tail: seq<Forest>, idx: nat)
    requires RefsIn(refs, own, idx + |head|)
    ensures RefsIn(refs, head + own + tail, idx)
  {
    var all := head + own + tail;
    forall r | r in refs ensures idx <= r.index < idx + |all| && all[r.index - idx] == r.kids {
      assert all[r.index - idx] == own[r.index - idx - |head|];
    }
  }

  lemma {:induction false} RefsConcat(a: seq<TextRef>, b: seq<TextRef>, own: seq<Forest>, idx: nat)
    requires RefsIn(a, own, idx) && RefsIn(b, own, idx)
    ensures RefsIn(a + b, own, idx)
  {}

  lemma {:induction false} RefsNone(own: seq<Forest>, idx: nat)
    ensures RefsIn([], own, idx)
  {}

  lemma {:induction false} RefsFirst(kids: Forest, rest: seq<Forest>, idx: nat)
    ensures RefsIn([TextRef(idx, kids)], [kids] + rest, idx)
  {}

  lemma {:induction false} ChildTextsIndexed(f: Forest, idx: nat)
    ensures RefsIn(ChildTexts(f, idx), OwnKids(f), idx)
  {
    hide IsText, OwnKids, RefsIn;
    RefsNone(OwnKids(f), idx);
    match f
    case Done =>
    case LeafNode(l, rest) =>
      OwnKidsLeaf(l, rest);
      ChildTextsIndexed(rest, idx);
    case Empty(h, rest) =>
      var own := if IsText(h) then [Done] else [];
      OwnKidsEmpty(h, rest);
      ChildTextsIndexed(rest, idx + |own|);
      RefsShift(ChildTexts(rest, idx + |own|), own, OwnKids(rest), [], idx);
      if IsText(h) {
        RefsFirst(Done, OwnKids(rest) + [], idx);
        assert [Done] + (OwnKids(rest) + []) == OwnKids(f);
        RefsConcat([TextRef(idx, Done)], ChildTexts(rest, idx + 1), OwnKids(f), idx);
      }
    case Elem(h, kids, tail, rest) =>
      var own := if IsText(h) then [kids] else [];
      var n := |own| + TextCount(kids);
      OwnKidsElem(h, kids, tail, rest);
      ChildTextsIndexed(rest, idx + n);
      RefsShift(ChildTexts(rest, idx + n), own + OwnKids(kids), OwnKids(rest), [], idx);
      assert own + OwnKids(kids) + OwnKids(rest) + [] == OwnKids(f);
      if IsText(h) {
        RefsFirst(kids, OwnKids(kids) + OwnKids(rest), idx);
        assert [kids] + (OwnKids(kids) + OwnKids(rest)) == OwnKids(f);
        RefsConcat([TextRef(idx, kids)], ChildTexts(rest, idx + n), OwnKids(f), idx);
      }
  }

  lemma {:induction false} RunTextsIndexed(f: Forest, idx: nat, chain: bool)
    ensures RefsIn(RunTexts(f, idx, chain), OwnKids(f), idx)
    decreases f
  {
    hide IsText, IsRun, RunChildrenOk, Transparent, ChildTexts, OwnKids, RefsIn;
    RefsNone(OwnKids(f), idx);
    match f
    case Done =>
    case LeafNode(l, rest) =>
      OwnKidsLeaf(l, rest);
      RunTextsIndexed(rest, idx, chain);
    case Empty(h, rest) =>
      var own := if IsText(h) then [Done] else [];
      OwnKidsEmpty(h, rest);
      RunTextsIndexed(rest, idx + |own|, chain);
      RefsShift(RunTexts(rest, idx + |own|, chain), own, OwnKids(rest), [], idx);
    case Elem(h, kids, tail, rest) =>
      var own := if IsText(h) then [kids] else [];
      var inner := idx + |own|;
      OwnKidsElem(h, kids, tail, rest);
      ChildTextsIndexed(kids, inner);
      RunTextsIndexed(kids, inner, chain && Transparent(h));
      RunTextsIndexed(rest, inner + TextCount(kids), chain);
      var here := if IsRun(h) && RunChildrenOk(kids) && chain then ChildTexts(kids, inner) else [];
      var below := RunTexts(kids, inner, chain && Transparent(h));
      RefsNone(OwnKids(kids), inner);
      RefsConcat(here, below, OwnKids(kids), inner);
      RefsShift(here + below, own, OwnKids(kids), OwnKids(rest), idx);
      RefsShift(RunTexts(rest, inner + TextCount(kids), chain), own + OwnKids(kids), OwnKids(rest), [], idx);
      assert own + OwnKids(kids) + OwnKids(rest) + [] == OwnKids(f);
      RefsConcat(here + below, RunTexts(rest, inner + TextCount(kids), chain), OwnKids(f), idx);
  }

  /** A paragraph's `w:t` elements are the stretch of all of them that starts at `first`. */
  ghost predicate ParaWithin(own: seq<Forest>, idx: nat, p: Para) {
    && idx <= p.first && p.first + TextCount(p.kids) <= idx + |own|
    && own[p.first - idx..p.first - idx + TextCount(p.kids)] == OwnKids(p.kids)
  }

  lemma {:induction false} ParasIndexed(f: Forest, off: nat, idx: nat)
    ensures forall p :: p in Paras(f, off, idx) ==> ParaWithin(OwnKids(f), idx, p)
    decreases f
  {
    hide IsText, PrintOpen, PrintEmpty, PrintClose, PrintLeaf, Print, OwnKids, ParaWithin;
    match f
    case Done =>
    case LeafNode(l, rest) =>
      OwnKidsLeaf(l, rest);
      ParasIndexed(rest, LeafEnd(l, off), idx);
    case Empty(h, rest) =>
      var own := if IsText(h) then [Done] else [];
      OwnKidsEmpty(h, rest);
      ParasIndexed(rest, EmptyEnd(h, off), idx + |own|);
      forall p | p in Paras(f, off, idx) ensures ParaWithin(OwnKids(f), idx, p) {
        if p in Paras(rest, EmptyEnd(h, off), idx + |own|) {
          WithinShift(own, OwnKids(rest), [], idx, p);
        } else {
          WithinBefore([], OwnKids(f), idx, p);
          assert [] + OwnKids(f) == OwnKids(f);
        }
      }
    case Elem(h, kids, tail, rest) =>
      var own := if IsText(h) then [kids] else [];
      var end := EndAt(h, kids, tail, off);
      var before := idx + |own|;
      OwnKidsElem(h, kids, tail, rest);
      ParasIndexed(rest, end, before + TextCount(kids));
      assert own + OwnKids(kids) + OwnKids(rest) + [] == OwnKids(f);
      forall p | p in Paras(f, off, idx) ensures ParaWithin(OwnKids(f), idx, p) {
        if p in Paras(rest, end, before + TextCount(kids)) {
          WithinShift(own + OwnKids(kids), OwnKids(rest), [], idx, p);
        } else {
          WithinSelf(kids, before, p);
          WithinShift(own, OwnKids(kids), OwnKids(rest), idx, p);
        }
      }
  }

  lemma {:induction false} WithinShift(head: seq<Forest>, own: seq<Forest>, tail: seq<Forest>, idx: nat, p: Para)
    requires ParaWithin(own, idx + |head|, p)
    ensures ParaWithin(head + own + tail, idx, p)
  {
    hide OwnKids;
    var n := TextCount(p.kids);
    var i := p.first - idx;
    assert (head + own + tail)[i..i + n] == own[i - |head|..i - |head| + n];
  }

  /** The body, seen as a stretch of the document's `w:t` elements. */
  function BodyPara(b: (Forest, nat, nat)): Para {
    Para(Span(0, 0, 0, true), b.0, b.1, b.2)
  }

  lemma {:induction false} WithinSelf(kids: Forest, idx: nat, p: Para)
    requires p.kids == kids && p.first == idx
    ensures ParaWithin(OwnKids(kids), idx, p)
  {
    hide OwnKids;
    var own := OwnKids(kids);
    assert own[0..|own|] == own;
  }

  lemma {:induction false} OwnKidsElem(h: TagHead, kids: Forest, tail: seq<byte>, rest: Forest)
    ensures OwnKids(Elem(h, kids, tail, rest)) == (if IsText(h) then [kids] else []) + OwnKids(kids) + OwnKids(rest)
  {
    hide IsText;
  }

  lemma {:induction false} OwnKidsEmpty(h: TagHead, rest: Forest)
    ensures OwnKids(Empty(h, rest)) == (if IsText(h) then [Done] else []) + OwnKids(rest) + []
    ensures OwnKids(Done) == []
  {
    hide IsText;
  }

  lemma {:induction false} BoundBodyIndexed(f: Forest, off: nat, idx: nat)
    requires BoundBody(f, off, idx).Some?
    ensures ParaWithin(OwnKids(f), idx, BodyPara(BoundBody(f, off, idx).value))
    decreases f
  {
    hide IsText, PrintOpen, PrintEmpty, PrintClose, PrintLeaf, Print, OwnKids, ParaWithin;
    var p := BodyPara(BoundBody(f, off, idx).value);
    match f
    case LeafNode(l, rest) =>
      BoundBodyIndexed(rest, LeafEnd(l, off), idx);
      OwnKidsLeaf(l, rest);
    case Empty(h, rest) =>
      var own := if IsText(h) then [Done] else [];
      OwnKidsEmpty(h, rest);
      if h.name.w && h.name.local == BODY {
        WithinSelf(Done, idx, p);
        BodyNotText(h);
        WithinBefore([], OwnKids(rest), idx, p);
        assert [] + OwnKids(rest) == OwnKids(Empty(h, rest));
      } else {
        BoundBodyIndexed(rest, EmptyEnd(h, off), idx + |own|);
        WithinShift(own, OwnKids(rest), [], idx, p);
      }
    case Elem(h, kids, tail, rest) =>
      var own := if IsText(h) then [kids] else [];
      OwnKidsElem(h, kids, tail, rest);
      if h.name.w && h.name.local == BODY {
        WithinSelf(kids, idx + |own|, p);
        WithinShift(own, OwnKids(kids), OwnKids(rest), idx, p);
      } else if BoundBody(kids, InnerAt(h, off), idx + |own|).Some? {
        BoundBodyIndexed(kids, InnerAt(h, off), idx + |own|);
        WithinShift(own, OwnKids(kids), OwnKids(rest), idx, p);
      } else {
        BoundBodyIndexed(rest, EndAt(h, kids, tail, off), idx + |own| + TextCount(kids));
        WithinShift(own + OwnKids(kids), OwnKids(rest), [], idx, p);
        assert own + OwnKids(kids) + OwnKids(rest) + [] == own + OwnKids(kids) + OwnKids(rest);
      }
  }

  lemma {:induction false} OwnKidsLeaf(l: Leaf, rest: Forest)
    ensures OwnKids(LeafNode(l, rest)) == OwnKids(rest)
  {}

  lemma {:induction false} BodyNotText(h: TagHead)
    requires h.name.local == BODY
    ensures !IsText(h)
  {}

  lemma {:induction false} WithinBefore(own: seq<Forest>, tail: seq<Forest>, idx: nat, p: Para)
    requires p.kids == Done && p.first == idx
    ensures ParaWithin(own + tail, idx, p)
  {}

  lemma {:induction false} SliceOfSlice<T>(s: seq<T>, a: nat, m: nat, i: nat, n: nat, j: nat)
    requires a + m <= |s| && i + n <= m && j < n
    ensures s[a..a + m][i..i + n][j] == s[a + i + j]
  {
    var t := s[a..a + m];
    assert t[i..i + n][j] == t[i + j];
  }

  /** The index a candidate of a paragraph carries is that of its `w:t` among all of the document. */
  lemma {:induction false} ParagraphsIndexed(root: Forest)
    ensures forall p, r :: p in Paragraphs(root) && r in RunTexts(p.kids, p.first, true) ==>
              r.index < TextCount(root) && OwnKids(root)[r.index] == r.kids
  {
    hide OwnKids, RunTexts, Paras, BoundBody;
    var b := BoundBody(root, 0, 0);
    if b.Some? {
      var (kids, at, first) := b.value;
      BoundBodyIndexed(root, 0, 0);
      ParasIndexed(kids, at, first);
      forall p, r | p in Paragraphs(root) && r in RunTexts(p.kids, p.first, true)
        ensures r.index < TextCount(root) && OwnKids(root)[r.index] == r.kids
      {
        RunTextsIndexed(p.kids, p.first, true);
        var i := p.first - first;
        var n, m := TextCount(p.kids), TextCount(kids);
        SliceOfSlice(OwnKids(root), first, m, i, n, r.index - p.first);
      }
    }
  }

  /** `select_target` */
  method SelectTarget(lib: Library, docxml: seq<byte>, others: seq<string>) returns (s: Selection)
    ensures IsSelection(lib, docxml, others, s)
  {
    hide Scan, Locate, RangesOf, FirstSafe, Safe, IsTarget, ParaCands, Paragraphs, RunTexts, Directs, OwnKids, Texts;
    var root := lib.parse(docxml);
    if root.None? {
      return Refused(Unparseable);
    }
    var located := LocateParagraphs(docxml);
    if located.None? {
      return Refused(LocatorFailed);
    }
    var (calls, parsed) := lib.calls(docxml);
    var ranges := WtRanges(docxml, calls, parsed, TextCount(root.value));
    if ranges.None? {
      return Refused(RangeMismatch);
    }
    var paras, entries := Paragraphs(root.value), Directs(located.value);
    if |entries| != |paras| {
      return Refused(DirectMismatch);
    }
    var v := ViewOf(lib, docxml, others, root.value, ranges.value);
    RangesCount(docxml, calls, parsed, TextCount(root.value));
    ParagraphsIndexed(root.value);
    assert paras[0..] == paras;
    for k := 0 to |paras|
      invariant FirstSafe(v, AllCands(lib, 0, paras)) == FirstSafe(v, AllCands(lib, k, paras[k..]))
    {
      assert paras[k] in paras;
      assert paras[k..][1..] == paras[k + 1..];
      FirstSafeConcat(v, ParaCands(lib, k, paras[k]), AllCands(lib, k + 1, paras[k + 1..]));
      ParaOrdinal(v, k, paras[k]);
      var t := TryParagraph(v, k, paras[k], entries[k].id);
      if t.Some? {
        return Selected(t.value);
      }
    }
    FirstSafeNone(v);
    s := Refused(NoSafeTarget);
  }

  lemma {:induction false} RangesCount(doc: seq<byte>, calls: seq<Callback>, parsed: bool, want: nat)
    requires RangesOf(doc, calls, parsed, want).Some?
    ensures |RangesOf(doc, calls, parsed, want).value| == want
  {}

  lemma {:induction false} RefsOrdinal(lib: Library, ordinal: nat, refs: seq<TextRef>)
    ensures forall c :: c in RefCands(lib, ordinal, refs) ==> c.ordinal == ordinal
  {
    if refs != [] {
      RefsOrdinal(lib, ordinal, refs[1..]);
    }
  }

  lemma {:induction false} FirstSafeIn(v: View, cands: seq<Cand>)
    ensures FirstSafe(v, cands).Some? ==> FirstSafe(v, cands).value in cands
    decreases |cands|
  {
    if cands != [] {
      FirstSafeIn(v, cands[1..]);
    }
  }

  lemma {:induction false} ParaOrdinal(v: View, ordinal: nat, p: Para)
    ensures var c := FirstSafe(v, ParaCands(v.lib, ordinal, p)); c.Some? ==> c.value.ordinal == ordinal
  {
    hide Safe, FirstSafe, RunTexts, ParagraphFlags;
    FirstSafeIn(v, ParaCands(v.lib, ordinal, p));
    RefsOrdinal(v.lib, ordinal, RunTexts(p.kids, p.first, true));
  }
}
