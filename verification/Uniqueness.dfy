/** What makes a target safe, told in occurrences: where its query stands in the folded texts, and where in the bytes. */
module Uniqueness {
  import opened Sequences
  import opened Scanner
  import opened Markup
  import opened Locator
  import opened LocatorResults
  import opened TextRanges
  import opened TextPairing
  import opened Queries
  import opened Target
  import opened TargetFacts

  /** One place, as a count without overlap sees it: every occurrence begins inside the first. An empty text has one gap. */
  ghost predicate Once<T(!new)>(s: seq<T>, pat: seq<T>) {
    if pat == [] then s == []
    else exists r :: At(s, pat, r) && forall p :: At(s, pat, p) ==> r <= p < r + |pat|
  }

  ghost predicate Never<T(!new)>(s: seq<T>, pat: seq<T>) {
    forall p :: !At(s, pat, p)
  }

  lemma {:induction false} CountedOnce<T(!new)>(s: seq<T>, pat: seq<T>)
    ensures PyCount(s, pat) == 1 <==> Once(s, pat)
    ensures PyCount(s, pat) == 0 <==> Never(s, pat)
  {
    hide At;
    if pat == [] {
      EmptyThere(s, pat);
    } else {
      CountOne(s, pat);
      CountZero(s, pat, 0);
      Bounds(s, pat);
      if Once(s, pat) {
        var r :| At(s, pat, r) && forall p :: At(s, pat, p) ==> r <= p < r + |pat|;
        var f := Find(s, pat, 0);
        assert f == r;
      }
    }
  }

  lemma {:induction false} EmptyThere<T>(s: seq<T>, pat: seq<T>)
    requires pat == []
    ensures At(s, pat, 0)
  {}

  lemma {:induction false} Bounds<T(!new)>(s: seq<T>, pat: seq<T>)
    ensures forall p :: At(s, pat, p) ==> 0 <= p
  {}

  // ----- among the folded texts -----

  /** The pattern is once in the folded i-th text and not at all in any other folded one. */
  ghost predicate OneText(lib: Library, texts: seq<string>, folded: string, i: nat) {
    && i < |texts| && Once(lib.fold(texts[i]), folded)
    && forall j :: 0 <= j < |texts| && j != i ==> Never(lib.fold(texts[j]), folded)
  }

  lemma {:induction false} FoldedNone(lib: Library, texts: seq<string>, folded: string)
    ensures FoldedCount(lib, texts, folded) == 0 <==> forall j :: 0 <= j < |texts| ==> Never(lib.fold(texts[j]), folded)
  {
    hide Once, Never, PyCount;
    if texts != [] {
      CountedOnce(lib.fold(texts[0]), folded);
      FoldedNone(lib, texts[1..], folded);
      assert texts == [texts[0]] + texts[1..];
    }
  }

  lemma {:induction false} FoldedOnce(lib: Library, texts: seq<string>, folded: string)
    ensures FoldedCount(lib, texts, folded) == 1 <==> exists i: nat :: OneText(lib, texts, folded, i)
  {
    hide Once, Never, PyCount;
    if texts != [] {
      var rest := texts[1..];
      CountedOnce(lib.fold(texts[0]), folded);
      FoldedOnce(lib, rest, folded);
      FoldedNone(lib, rest, folded);
      assert forall j :: 0 <= j < |rest| ==> rest[j] == texts[j + 1];
      if FoldedCount(lib, texts, folded) == 1 {
        if PyCount(lib.fold(texts[0]), folded) == 1 {
          assert OneText(lib, texts, folded, 0);
        } else {
          var i: nat :| OneText(lib, rest, folded, i);
          OneTextMore(lib, texts, folded, i);
        }
      }
      if i: nat :| OneText(lib, texts, folded, i) {
        OneTextRest(lib, texts, folded, i);
      }
    }
  }

  lemma {:induction false} OneTextMore(lib: Library, texts: seq<string>, folded: string, i: nat)
    requires texts != [] && Never(lib.fold(texts[0]), folded) && OneText(lib, texts[1..], folded, i)
    ensures OneText(lib, texts, folded, i + 1)
  {
    hide Once, Never;
    forall j | 0 <= j < |texts| && j != i + 1 ensures Never(lib.fold(texts[j]), folded) {
      if j > 0 {
        assert texts[j] == texts[1..][j - 1];
      }
    }
  }

  lemma {:induction false} OneTextRest(lib: Library, texts: seq<string>, folded: string, i: nat)
    requires texts != [] && OneText(lib, texts, folded, i)
    ensures i > 0 ==> Never(lib.fold(texts[0]), folded) && OneText(lib, texts[1..], folded, i - 1)
    ensures i == 0 ==> Once(lib.fold(texts[0]), folded) && forall j :: 0 <= j < |texts[1..]| ==> Never(lib.fold(texts[1..][j]), folded)
  {
    hide Once, Never;
    assert forall j :: 0 <= j < |texts[1..]| ==> texts[1..][j] == texts[j + 1];
  }

  lemma {:induction false} NotInSome(lib: Library, texts: seq<string>, folded: string)
    ensures InSome(lib, texts, folded) <==> exists i :: 0 <= i < |texts| && !Never(lib.fold(texts[i]), folded)
  {
    forall i | 0 <= i < |texts| ensures Find(lib.fold(texts[i]), folded, 0) >= 0 <==> !Never(lib.fold(texts[i]), folded) {
      Bounds(lib.fold(texts[i]), folded);
    }
  }

  // ----- in the bytes -----

  ghost predicate FirstBetween(doc: seq<byte>, pat: seq<byte>, a: nat, b: nat, r: int) {
    a <= r && r + |pat| <= b && At(doc, pat, r)
    && forall p :: a <= p && p + |pat| <= b && At(doc, pat, p) ==> r <= p < r + |pat|
  }

  /** Between the two offsets the pattern stands once, in the same sense. */
  ghost predicate OnceBetween(doc: seq<byte>, pat: seq<byte>, a: nat, b: nat) {
    exists r :: FirstBetween(doc, pat, a, b, r)
  }

  ghost predicate FirstThere(s: seq<byte>, pat: seq<byte>, r: int) {
    At(s, pat, r) && forall p :: At(s, pat, p) ==> r <= p < r + |pat|
  }

  lemma {:induction false} SliceFirst(doc: seq<byte>, pat: seq<byte>, a: nat, b: nat, r: int)
    requires pat != []
    ensures FirstThere(PySlice(doc, a, b), pat, r - a) <==> FirstBetween(doc, pat, a, b, r)
  {
    hide At, PySlice;
    var s := PySlice(doc, a, b);
    SliceAt(doc, pat, a, b, r);
    if FirstThere(s, pat, r - a) {
      forall p | a <= p && p + |pat| <= b && At(doc, pat, p) ensures r <= p < r + |pat| {
        SliceAt(doc, pat, a, b, p);
      }
    }
    if FirstBetween(doc, pat, a, b, r) {
      forall p | At(s, pat, p) ensures r - a <= p < r - a + |pat| {
        SliceAt(doc, pat, a, b, p + a);
      }
    }
  }

  lemma {:induction false} SliceOnce(doc: seq<byte>, pat: seq<byte>, a: nat, b: nat)
    requires pat != []
    ensures PyCount(PySlice(doc, a, b), pat) == 1 <==> OnceBetween(doc, pat, a, b)
  {
    hide At, PySlice, FirstThere, FirstBetween;
    var s := PySlice(doc, a, b);
    CountedOnce(s, pat);
    OnceIs(s, pat);
    if r :| FirstThere(s, pat, r) {
      SliceFirst(doc, pat, a, b, r + a);
    }
    if r :| FirstBetween(doc, pat, a, b, r) {
      SliceFirst(doc, pat, a, b, r);
    }
  }

  lemma {:induction false} OnceIs(s: seq<byte>, pat: seq<byte>)
    requires pat != []
    ensures Once(s, pat) <==> exists r :: FirstThere(s, pat, r)
  {
    if Once(s, pat) {
      var r :| At(s, pat, r) && forall p :: At(s, pat, p) ==> r <= p < r + |pat|;
      assert FirstThere(s, pat, r);
    }
  }

  lemma {:induction false} SliceAt(doc: seq<byte>, pat: seq<byte>, a: nat, b: nat, p: int)
    requires pat != []
    ensures At(PySlice(doc, a, b), pat, p - a) <==> a <= p && p + |pat| <= b && At(doc, pat, p)
  {
    var hi := if b > |doc| then |doc| else b;
    if a < hi && a <= p && p + |pat| <= hi {
      InnerOccurrence(doc, pat, a, hi, p - a);
    }
  }

  // ----- what the tests of a candidate say -----

  /**
   Folded, the query is once in one text and in no other, and likewise among the paragraphs; it is in none of the other
   texts; and its bytes are once in the member and once in the range of its `w:t`.
   */
  ghost predicate Unique(v: View, c: Cand) {
    var folded, qb := v.lib.fold(c.query), Utf8(c.query);
    && (exists i: nat :: OneText(v.lib, v.texts, folded, i)) && (exists k: nat :: OneText(v.lib, v.paraTexts, folded, k))
    && (forall n :: 0 <= n < |v.others| ==> Never(v.lib.fold(v.others[n]), folded))
    && Once(v.doc, qb) && c.index < |v.ranges| && OnceBetween(v.doc, qb, v.ranges[c.index].start, v.ranges[c.index].end)
  }

  /** A candidate is safe exactly when it is unique in these terms. */
  lemma {:induction false} SafeExactly(v: View, c: Cand)
    requires c.query != ""
    ensures Safe(v, c) <==> Unique(v, c)
  {
    hide Utf8, PyCount, PySlice, Once, Never, OnceBetween, OneText, FoldedCount, InSome;
    var folded, qb := v.lib.fold(c.query), Utf8(c.query);
    NonEmptyBytes(c.query);
    FoldedOnce(v.lib, v.texts, folded);
    FoldedOnce(v.lib, v.paraTexts, folded);
    NotInSome(v.lib, v.others, folded);
    CountedOnce(v.doc, qb);
    if c.index < |v.ranges| {
      SliceOnce(v.doc, qb, v.ranges[c.index].start, v.ranges[c.index].end);
    }
  }

  lemma {:induction false} NonEmptyBytes(s: string)
    requires s != ""
    ensures Utf8(s) != []
  {}

  // ----- the selection -----

  /** The texts of the `w:t` elements are joined one after the other, and nothing else makes a joined text. */
  lemma {:induction false} JoinOfParts(a: seq<string>, b: seq<string>, s: string)
    ensures Join(a + b) == Join(a) + Join(b) && Join([s]) == s && Join([]) == ""
    decreases |a|
  {
    assert [s][1..] == [] && Join([s]) == s + Join([]);
    if a == [] {
      assert a + b == b;
    } else {
      assert (a + b)[1..] == a[1..] + b;
      JoinOfParts(a[1..], b, s);
    }
  }

  /** The text of a paragraph: those of its `w:t` elements, nested ones included, in document order. */
  ghost predicate TextOfPara(lib: Library, p: Para, text: string) {
    exists parts: seq<string> ::
      |parts| == |OwnKids(p.kids)| && text == Join(parts)
      && forall i :: 0 <= i < |parts| ==> parts[i] == lib.text(OwnKids(p.kids)[i])
  }

  /** The texts of all `w:t` elements, and of all paragraphs, as a tested view has to hold them. */
  ghost predicate Views(lib: Library, doc: seq<byte>, others: seq<string>, v: View) {
    && lib.parse(doc).Some? && v.lib == lib && v.doc == doc && v.others == others
    && var root := lib.parse(doc).value;
       var paras := Paragraphs(root);
       && |v.texts| == |OwnKids(root)| && (forall i :: 0 <= i < |v.texts| ==> v.texts[i] == lib.text(OwnKids(root)[i]))
       && |v.paraTexts| == |paras| && (forall k :: 0 <= k < |paras| ==> TextOfPara(lib, paras[k], v.paraTexts[k]))
       && RangesOf(doc, lib.calls(doc).0, lib.calls(doc).1, |OwnKids(root)|) == Some(v.ranges)
  }

  lemma {:induction false} ViewOfViews(lib: Library, doc: seq<byte>, others: seq<string>, ranges: seq<Range>)
    requires lib.parse(doc).Some?
    requires RangesOf(doc, lib.calls(doc).0, lib.calls(doc).1, |OwnKids(lib.parse(doc).value)|) == Some(ranges)
    ensures Views(lib, doc, others, ViewOf(lib, doc, others, lib.parse(doc).value, ranges))
  {
    hide Paragraphs, RangesOf, OwnKids, Join;
    var root := lib.parse(doc).value;
    var paras, v := Paragraphs(root), ViewOf(lib, doc, others, root, ranges);
    forall k | 0 <= k < |paras| ensures TextOfPara(lib, paras[k], v.paraTexts[k]) {
      assert v.paraTexts[k] == Join(Texts(lib, OwnKids(paras[k].kids)));
    }
  }

  /** The target comes from the k-th candidate, the first that is unique, and lies in the range of its `w:t`. */
  ghost predicate FirstUnique(v: View, cands: seq<Cand>, t: EditTarget, k: nat) {
    && k < |cands| && cands[k].query == t.query && Unique(v, cands[k])
    && v.ranges[cands[k].index] == Range(t.wtStart, t.wtEnd)
    && forall j :: 0 <= j < k ==> !Unique(v, cands[j])
  }

  /**
   For every document and every library: a selected query is, folded, in one `w:t` only and there once, in one paragraph
   only and there once, and in none of the other texts; its bytes are once in the member and once in its `w:t`. And it
   comes from the first candidate of which this holds; when the refusal is that there is none, it holds of no candidate.
   */
  lemma {:induction false} SelectedIsUnique(lib: Library, doc: seq<byte>, others: seq<string>, s: Selection)
    returns (v: View, k: nat)
    requires IsSelection(lib, doc, others, s) && (s.Selected? || s == Refused(NoSafeTarget))
    ensures Views(lib, doc, others, v)
    ensures var cands := AllCands(lib, 0, Paragraphs(lib.parse(doc).value));
            && (s.Refused? ==> forall j :: 0 <= j < |cands| ==> !Unique(v, cands[j]))
            && (s.Selected? ==> FirstUnique(v, cands, s.target, k))
  {
    hide Scan, Locate, Paragraphs, AllCands, FirstSafe, Directs, RangesOf, OwnKids, Safe, Unique, Views, ViewOf, IsQuery, Utf8,
         AllQueries, ReplacementFor;
    var root := lib.parse(doc).value;
    var ranges := RangesOf(doc, lib.calls(doc).0, lib.calls(doc).1, TextCount(root)).value;
    v := ViewOf(lib, doc, others, root, ranges);
    ViewOfViews(lib, doc, others, ranges);
    var cands := AllCands(lib, 0, Paragraphs(root));
    AllCandsQueries(lib, 0, Paragraphs(root));
    forall j | 0 <= j < |cands| ensures Safe(v, cands[j]) <==> Unique(v, cands[j]) {
      QueryIn(cands, cands[j]);
      QueryNotEmpty(cands[j].query);
      SafeExactly(v, cands[j]);
    }
    FirstSafeIs(v, cands);
    k := 0;
    ViewRanges(lib, doc, others, root, ranges);
    if s.Selected? {
      var c := FirstSafe(v, cands).value;
      k :| k < |cands| && cands[k] == c && Safe(v, c) && forall j :: 0 <= j < k ==> !Safe(v, cands[j]);
      assert v.ranges[c.index] == Range(s.target.wtStart, s.target.wtEnd);
      assert FirstUnique(v, cands, s.target, k);
    }
  }

  lemma {:induction false} QueryNotEmpty(q: string)
    requires IsQuery(q)
    ensures q != ""
  {}

  lemma {:induction false} ViewRanges(lib: Library, doc: seq<byte>, others: seq<string>, root: Forest, ranges: seq<Range>)
    ensures ViewOf(lib, doc, others, root, ranges).ranges == ranges
  {}
}
