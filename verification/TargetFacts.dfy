/** What a selected target is: the one place of its query, and an expected document that differs nowhere else. */
module TargetFacts {
  import opened Sequences
  import opened Scanner
  import opened ScanStability
  import opened Locator
  import opened LocatorResults
  import opened TextRanges
  import opened TextPairing
  import opened Queries
  import opened Target

  // ----- recorded ranges, whatever the parser reports -----

  ghost predicate AfterAngle(doc: seq<byte>, x: nat) {
    0 < x <= |doc| && doc[x - 1] == GT
  }

  /** Every recorded start follows a `>`, every recorded end lies in the document. */
  ghost predicate Marked(doc: seq<byte>, ranges: seq<Range>) {
    forall i :: 0 <= i < |ranges| ==> AfterAngle(doc, ranges[i].start) && ranges[i].end <= |doc|
  }

  ghost predicate MarkedStack(doc: seq<byte>, stack: seq<nat>) {
    forall i :: 0 <= i < |stack| ==> AfterAngle(doc, stack[i])
  }

  lemma {:induction false} MarkedCall(doc: seq<byte>, r: Record, c: Callback)
    requires Marked(doc, r.ranges) && MarkedStack(doc, r.stack)
    ensures var r' := OnCall(doc, r, c); Marked(doc, r'.ranges) && MarkedStack(doc, r'.stack)
  {
    if c.wt && c.StartCall? {
      var close := Find(doc, [GT], c.at);
      if close >= 0 {
        ByteAt(doc, [GT], close, 0);
        assert AfterAngle(doc, close + 1);
      }
    }
  }

  lemma {:induction false} MarkedRanges(doc: seq<byte>, r: Record, calls: seq<Callback>)
    requires Marked(doc, r.ranges) && MarkedStack(doc, r.stack)
    ensures Marked(doc, Handle(doc, r, calls).ranges)
    decreases |calls|
  {
    if calls != [] {
      MarkedCall(doc, r, calls[0]);
      MarkedRanges(doc, OnCall(doc, r, calls[0]), calls[1..]);
    }
  }

  // ----- candidates -----

  ghost predicate AllQueries(cands: seq<Cand>) {
    forall k :: 0 <= k < |cands| ==> IsQuery(cands[k].query)
  }

  lemma {:induction false} RefCandsQueries(lib: Library, ordinal: nat, refs: seq<TextRef>)
    ensures AllQueries(RefCands(lib, ordinal, refs))
  {
    if refs != [] {
      CandidatesAreTiles(lib.text(refs[0].kids));
      RefCandsQueries(lib, ordinal, refs[1..]);
    }
  }

  lemma {:induction false} AllCandsQueries(lib: Library, ordinal: nat, paras: seq<Para>)
    ensures AllQueries(AllCands(lib, ordinal, paras))
    decreases |paras|
  {
    if paras != [] {
      RefCandsQueries(lib, ordinal, RunTexts(paras[0].kids, paras[0].first, true));
      AllCandsQueries(lib, ordinal + 1, paras[1..]);
    }
  }

  lemma {:induction false} RefCandsIn(lib: Library, ordinal: nat, refs: seq<TextRef>, c: Cand) returns (r: TextRef)
    requires c in RefCands(lib, ordinal, refs)
    ensures r in refs && r.index == c.index && c.ordinal == ordinal && c.query in CandidateQueries(lib.text(r.kids))
  {
    hide CandidateQueries;
    var own := QueryCands(ordinal, refs[0].index, CandidateQueries(lib.text(refs[0].kids)));
    if c in own {
      r := refs[0];
    } else {
      r := RefCandsIn(lib, ordinal, refs[1..], c);
    }
  }

  /** A candidate is a query of a run's text in the paragraph it names, which carries no lock. */
  lemma {:induction false} AllCandsIn(lib: Library, ordinal: nat, paras: seq<Para>, c: Cand) returns (r: TextRef)
    requires c in AllCands(lib, ordinal, paras)
    ensures ordinal <= c.ordinal < ordinal + |paras|
    ensures var p := paras[c.ordinal - ordinal];
            && !ParagraphFlags(p.kids).Any()
            && r in RunTexts(p.kids, p.first, true) && r.index == c.index && c.query in CandidateQueries(lib.text(r.kids))
    decreases |paras|
  {
    hide CandidateQueries, RunTexts, ParagraphFlags, RefCands;
    if c in ParaCands(lib, ordinal, paras[0]) {
      r := RefCandsIn(lib, ordinal, RunTexts(paras[0].kids, paras[0].first, true), c);
    } else {
      r := AllCandsIn(lib, ordinal + 1, paras[1..], c);
    }
  }

  // ----- the one place of the query -----

  /** `pat` occurs in `doc` first at `at`, and every occurrence overlaps that one. */
  ghost predicate OnlyAt(doc: seq<byte>, pat: seq<byte>, at: nat) {
    && At(doc, pat, at) && Find(doc, pat, 0) == at
    && forall j :: At(doc, pat, j) ==> at <= j < at + |pat|
  }

  /** Counting one in the whole and one in an inner part that follows a byte foreign to `pat` fixes the place. */
  lemma {:induction false} InnerIsLeftmost(doc: seq<byte>, pat: seq<byte>, a: nat, b: nat)
    requires pat != [] && GT !in pat && AfterAngle(doc, a) && b <= |doc|
    requires Count(doc, pat, 0) == 1 && PyCount(PySlice(doc, a, b), pat) == 1
    ensures var at := a + Find(PySlice(doc, a, b), pat, 0);
            a <= at && at + |pat| <= b && OnlyAt(doc, pat, at)
  {
    var inner := PySlice(doc, a, b);
    CountOne(doc, pat);
    CountOne(inner, pat);
    var i, j := Find(doc, pat, 0), Find(inner, pat, 0);
    assert a < b && inner == doc[a..b];
    InnerOccurrence(doc, pat, a, b, j);
    NotSpanning(doc, pat, i, a - 1);
    InnerOccurrence(doc, pat, a, b, i - a);
  }

  lemma {:induction false} NotSpanning(doc: seq<byte>, pat: seq<byte>, i: int, k: nat)
    requires k < |doc| && doc[k] !in pat
    ensures At(doc, pat, i) ==> k < i || i + |pat| <= k
  {
    if i <= k < i + |pat| {
      NotAt(doc, pat, i, k - i);
    }
  }

  lemma {:induction false} InnerOccurrence(doc: seq<byte>, pat: seq<byte>, a: nat, b: nat, j: int)
    requires a <= b <= |doc| && 0 <= j && j + |pat| <= b - a
    ensures At(doc[a..b], pat, j) <==> At(doc, pat, a + j)
  {
    var x, y := doc[a..b][j..j + |pat|], doc[a + j..a + j + |pat|];
    assert |x| == |y| && forall k :: 0 <= k < |x| ==> x[k] == y[k];
  }

  lemma {:induction false} NoAngle(q: string)
    requires IsQuery(q)
    ensures GT !in Utf8(q) && LT !in Utf8(q) && |Utf8(q)| >= 8
  {
    QueryBytes(q);
  }

  /** What holds of every selected target, whatever the libraries report. */
  ghost predicate GoodTarget(doc: seq<byte>, t: EditTarget) {
    var qb, rb := Utf8(t.query), Utf8(t.replacement);
    && IsQuery(t.query) && t.replacement == ReplacementOr(t.query)
    && t.wtStart <= t.queryStart && t.queryEnd == t.queryStart + |qb| <= t.wtEnd <= |doc|
    && OnlyAt(doc, qb, t.queryStart)
    && Replaces(qb, rb) && rb != qb
    && t.expected == Splice(doc, t.queryStart, rb)
  }

  function ReplacementOr(q: string): string {
    if q == [] then [] else ReplacementFor(q)
  }

  /**
   For every document, every library behaviour and every list of other texts: a selected query stands inside its
   `w:t` range, its start is its leftmost occurrence in the entire member, every other occurrence overlaps that one,
   and the expected document is the source with exactly those bytes replaced by equally many different ones.
   */
  lemma {:induction false} SelectionIsGood(lib: Library, doc: seq<byte>, others: seq<string>, s: Selection)
    requires IsSelection(lib, doc, others, s) && s.Selected?
    ensures GoodTarget(doc, s.target)
  {
    hide Scan, Locate, Paragraphs, AllCands, FirstSafe, Directs, Handle, Utf8, OwnKids, IsQuery, OnlyAt, Replaces,
         ReplacementFor, Marked, AllQueries, Texts, Safe, Count, PySlice, PyCount;
    var root := lib.parse(doc).value;
    var (calls, parsed) := lib.calls(doc);
    var ranges := RangesOf(doc, calls, parsed, TextCount(root)).value;
    MarkedNone(doc);
    MarkedRanges(doc, FRESH, calls);
    var paras := Paragraphs(root);
    var v := ViewOf(lib, doc, others, root, ranges);
    var cands := AllCands(lib, 0, paras);
    AllCandsQueries(lib, 0, paras);
    FirstSafeIn(v, cands);
    FirstSafeSafe(v, cands);
    var c := FirstSafe(v, cands).value;
    QueryIn(cands, c);
    SafeIsGood(v, c, s.target, s.target.paragraphId);
  }

  // ----- there is exactly one selection -----

  lemma {:induction false} SafeHasTarget(v: View, c: Cand, id: Option<nat>) returns (t: EditTarget)
    requires IsQuery(c.query) && Safe(v, c)
    ensures IsTarget(v.doc, c, v.ranges[c.index], id, t)
  {
    hide Utf8, ReplacementFor, QueryChars, FoldedCount, InSome;
    var range, qb := v.ranges[c.index], Utf8(c.query);
    ReplacementOfQuery(c.query);
    CountOne(PySlice(v.doc, range.start, range.end), qb);
    var start := range.start + Find(PySlice(v.doc, range.start, range.end), qb, 0);
    var replacement := ReplacementFor(c.query);
    t := EditTarget(id, c.ordinal, range.start, range.end, start, start + |qb|, c.query, replacement,
                    v.doc[..start] + Utf8(replacement) + v.doc[start + |qb|..]);
  }

  lemma {:induction false} SelectionExists(lib: Library, doc: seq<byte>, others: seq<string>) returns (s: Selection)
    ensures IsSelection(lib, doc, others, s)
  {
    hide Scan, Locate, Paragraphs, AllCands, FirstSafe, Directs, Handle, Utf8, OwnKids, IsQuery, ReplacementFor, AllQueries,
         Texts, Safe, IsTarget, RangesOf;
    var root := lib.parse(doc);
    if root.None? {
      return Refused(Unparseable);
    }
    var located := Locate(Scan(doc, 0));
    if located.None? {
      return Refused(LocatorFailed);
    }
    var (calls, parsed) := lib.calls(doc);
    var ranges := RangesOf(doc, calls, parsed, TextCount(root.value));
    if ranges.None? {
      return Refused(RangeMismatch);
    }
    var paras, entries := Paragraphs(root.value), Directs(located.value);
    if |entries| != |paras| {
      return Refused(DirectMismatch);
    }
    var v := ViewOf(lib, doc, others, root.value, ranges.value);
    var cands := AllCands(lib, 0, paras);
    var c := FirstSafe(v, cands);
    if c.None? {
      return Refused(NoSafeTarget);
    }
    AllCandsQueries(lib, 0, paras);
    FirstSafeIn(v, cands);
    FirstSafeSafe(v, cands);
    QueryIn(cands, c.value);
    var r := AllCandsIn(lib, 0, paras, c.value);
    SafeIndex(v, c.value);
    var t := SafeHasTarget(v, c.value, entries[c.value.ordinal].id);
    s := Selected(t);
  }

  lemma {:induction false} SafeIndex(v: View, c: Cand)
    requires Safe(v, c)
    ensures c.index < |v.ranges|
  {
    hide Utf8, FoldedCount, InSome, PySlice, PyCount;
  }

  lemma {:induction false} OneSelection(lib: Library, doc: seq<byte>, others: seq<string>, s: Selection, s': Selection)
    requires IsSelection(lib, doc, others, s) && IsSelection(lib, doc, others, s')
    ensures s == s'
  {
    hide Scan, Locate, Paragraphs, AllCands, FirstSafe, Directs, Handle, Utf8, OwnKids, ReplacementFor, Texts, PySlice, Find;
  }

  lemma {:induction false} SomeSelection(lib: Library, doc: seq<byte>, others: seq<string>)
    ensures exists s :: IsSelection(lib, doc, others, s)
  {
    hide IsSelection;
    var s := SelectionExists(lib, doc, others);
  }

  /** What `select_target` returns for a document. */
  ghost function SelectionOf(lib: Library, doc: seq<byte>, others: seq<string>): (s: Selection)
    ensures IsSelection(lib, doc, others, s)
  {
    SomeSelection(lib, doc, others);
    var s :| IsSelection(lib, doc, others, s);
    s
  }

  /** `IsSelection` determines the selection. */
  lemma {:induction false} SelectionIs(lib: Library, doc: seq<byte>, others: seq<string>, s: Selection)
    ensures IsSelection(lib, doc, others, s) <==> s == SelectionOf(lib, doc, others)
  {
    hide IsSelection;
    if IsSelection(lib, doc, others, s) {
      OneSelection(lib, doc, others, s, SelectionOf(lib, doc, others));
    }
  }

  lemma {:induction false} MarkedNone(doc: seq<byte>)
    ensures Marked(doc, []) && MarkedStack(doc, [])
  {}

  lemma {:induction false} FirstSafeSafe(v: View, cands: seq<Cand>)
    requires FirstSafe(v, cands).Some?
    ensures Safe(v, FirstSafe(v, cands).value)
    decreases |cands|
  {
    if !Safe(v, cands[0]) {
      FirstSafeSafe(v, cands[1..]);
    }
  }

  lemma {:induction false} QueryIn(cands: seq<Cand>, c: Cand)
    requires AllQueries(cands) && c in cands
    ensures IsQuery(c.query)
  {}

  lemma {:induction false} SafeIsGood(v: View, c: Cand, t: EditTarget, id: Option<nat>)
    requires IsQuery(c.query) && Safe(v, c) && Marked(v.doc, v.ranges)
    requires IsTarget(v.doc, c, v.ranges[c.index], id, t)
    ensures GoodTarget(v.doc, t)
  {
    hide Utf8, OnlyAt, Replaces, ReplacementFor, FoldedCount, InSome, Count, PySlice, IsQuery, Find;
    var range := v.ranges[c.index];
    NoAngle(c.query);
    assert AfterAngle(v.doc, range.start);
    InnerIsLeftmost(v.doc, Utf8(c.query), range.start, range.end);
    ReplacementOfQuery(c.query);
    ReplacementBytesDiffer(c.query);
    ReplacesLength(Utf8(t.query), Utf8(t.replacement));
  }

  lemma {:induction false} ReplacesLength(q: seq<byte>, r: seq<byte>)
    requires Replaces(q, r)
    ensures |q| == |r|
  {}

  /** Without self-overlap the query stands nowhere else. */
  lemma {:induction false} GoodTargetUnique(doc: seq<byte>, t: EditTarget, j: int)
    requires GoodTarget(doc, t) && NoSelfOverlap(Utf8(t.query)) && At(doc, Utf8(t.query), j)
    ensures j == t.queryStart
  {
    hide Utf8, IsQuery, ReplacementOr, Replaces;
    if j != t.queryStart {
      OverlapIsShift(doc, Utf8(t.query), t.queryStart, j);
    }
  }

  /**
   For every document: the expected one has the same length, differs from the source, differs only inside the query's
   stretch, gives the source back when the query is put back, and scans to the same tags at the same spans.
   */
  lemma {:induction false} ExpectedDocument(doc: seq<byte>, t: EditTarget)
    requires GoodTarget(doc, t)
    ensures |t.expected| == |doc| && t.expected != doc
    ensures forall i :: 0 <= i < |doc| && !(t.queryStart <= i < t.queryEnd) ==> t.expected[i] == doc[i]
    ensures At(t.expected, Utf8(t.replacement), t.queryStart)
    ensures Splice(t.expected, t.queryStart, Utf8(t.query)) == doc
    ensures var before, after := Scan(doc, 0), Scan(t.expected, 0);
            && |after| == |before|
            && forall k :: 0 <= k < |before| ==>
                 (&& after[k] == before[k].(name := after[k].name)
                  && (before[k].end <= t.queryStart || t.queryEnd <= before[k].start ==> after[k] == before[k]))
  {
    hide Utf8, IsQuery, ReplacementOr, Scan, Find;
    var qb, rb := Utf8(t.query), Utf8(t.replacement);
    NoAngle(t.query);
    AtIndex(doc, qb, t.queryStart);
    AtIndex(t.expected, rb, t.queryStart);
    ByPieces(doc, t.expected, qb, rb, t.queryStart);
    ScanStable(doc, t.queryStart, qb, rb);
  }

  lemma {:induction false} ByPieces(doc: seq<byte>, out: seq<byte>, q: seq<byte>, r: seq<byte>, at: nat)
    requires At(doc, q, at) && |q| == |r| && q != r && out == Splice(doc, at, r)
    ensures out != doc && At(out, r, at) && Splice(out, at, q) == doc
  {
    assert out[at..at + |r|] == r;
    var back := Splice(out, at, q);
    forall i | 0 <= i < |doc| ensures back[i] == doc[i] {
      if at <= i < at + |q| {
        ByteAt(doc, q, at, i - at);
      }
    }
    assert back == doc;
  }
}
