/** What is probed: which part of which text, and where that stands, told by character codes and occurrences. */
module ProbeLaws {
  import opened Sequences
  import opened Scanner
  import opened Markup
  import opened Locator
  import opened LocatorResults
  import opened TextRanges
  import opened TextPairing
  import opened Queries
  import opened Target
  import opened Uniqueness
  import opened Probe
  import opened Structure

  // ----- the stripped text -----

  /** The codes Python's `str.strip` takes away. */
  predicate White(code: int) {
    9 <= code <= 13 || 28 <= code <= 32 || code == 133 || code == 160 || code == 5760 || 8192 <= code <= 8202
    || code == 8232 || code == 8233 || code == 8239 || code == 8287 || code == 12288
  }

  /** `[i, j)` is what is left of the text: only white characters outside, none at its ends. */
  ghost predicate Core(text: string, i: nat, j: nat) {
    && i <= j <= |text|
    && (forall k :: 0 <= k < i || j <= k < |text| ==> White(text[k] as int))
    && (i < j ==> !White(text[i] as int) && !White(text[j - 1] as int))
  }

  lemma {:induction false} BlankIsWhite(c: char)
    ensures Blank(c) <==> White(c as int)
  {}

  lemma {:induction false} StripIsCore(text: string) returns (i: nat, j: nat)
    ensures Core(text, i, j) && StripText(text) == text[i..j]
    decreases |text|
  {
    hide Blank, White;
    if text != [] {
      BlankIsWhite(text[0]);
      BlankIsWhite(text[|text| - 1]);
    }
    if text != [] && Blank(text[0]) {
      i, j := StripIsCore(text[1..]);
      forall k | 0 <= k < i + 1 || j + 1 <= k < |text| ensures White(text[k] as int) {
        assert k > 0 ==> text[k] == text[1..][k - 1];
      }
      assert text[1..][i..j] == text[i + 1..j + 1];
      i, j := i + 1, j + 1;
    } else if text != [] && Blank(text[|text| - 1]) {
      var n := |text| - 1;
      i, j := StripIsCore(text[..n]);
      forall k | 0 <= k < i || j <= k < |text| ensures White(text[k] as int) {
        assert k < n ==> text[k] == text[..n][k];
      }
      assert text[..n][i..j] == text[i..j];
    } else {
      i, j := 0, |text|;
      assert text[0..|text|] == text;
    }
  }

  /** The query is the start of what is left of the text: all of it, or its first 32 characters. */
  ghost predicate IsStart(text: string, query: string) {
    exists i: nat, j: nat :: Core(text, i, j) && query == text[i..if j - i > 32 then i + 32 else j]
  }

  lemma {:induction false} QueryIsStart(text: string)
    ensures IsStart(text, ProbeQuery(text))
    ensures |StripText(text)| >= 2 <==> |ProbeQuery(text)| >= 2
  {
    hide StripText, Core;
    var i, j := StripIsCore(text);
    CoreBounds(text, i, j);
    assert |text[i..j]| == j - i;
    if j - i > 32 {
      assert text[i..j][..32] == text[i..i + 32];
    }
  }

  lemma {:induction false} CoreBounds(text: string, i: nat, j: nat)
    requires Core(text, i, j)
    ensures i <= j <= |text|
  {
    hide White;
  }

  // ----- where it stands -----

  /**
   A probe query has two characters at least; folded it is once in one text and in no other; its bytes are once in the
   member and once in the range of its `w:t`.
   */
  ghost predicate Narrow(v: View, index: nat, query: string) {
    var folded, qb := v.lib.fold(query), Utf8(query);
    && |query| >= 2 && (exists i: nat :: OneText(v.lib, v.texts, folded, i))
    && Once(v.doc, qb) && index < |v.ranges| && OnceBetween(v.doc, qb, v.ranges[index].start, v.ranges[index].end)
  }

  lemma {:induction false} ProbableExactly(v: View, index: nat, text: string)
    ensures Probable(v, index, text) <==> Narrow(v, index, ProbeQuery(text))
  {
    hide Utf8, StripText, ProbeQuery, PyCount, PySlice, FoldedCount, Once, OnceBetween, OneText;
    var q := ProbeQuery(text);
    QueryIsStart(text);
    FoldedOnce(v.lib, v.texts, v.lib.fold(q));
    if |q| >= 2 {
      NonEmptyBytes(q);
      CountedOnce(v.doc, Utf8(q));
      if index < |v.ranges| {
        SliceOnce(v.doc, Utf8(q), v.ranges[index].start, v.ranges[index].end);
      }
    }
  }

  /** The k-th `w:t` of the paragraph with that ordinal is the probe's: its text starts with the query. */
  ghost predicate ProbesText(lib: Library, doc: seq<byte>, v: View, p: ProbeTarget, k: nat) {
    && lib.parse(doc).Some? && Views(lib, doc, [], v)
    && var paras := Paragraphs(lib.parse(doc).value);
       && p.ordinal < |paras|
       && var para := paras[p.ordinal];
          && HasOneOf(para.kids, OPAQUE + REVISION + FIELD + CONTROL) && k < |OwnKids(para.kids)|
          && IsStart(lib.text(OwnKids(para.kids)[k]), p.query) && Narrow(v, para.first + k, p.query)
          && v.ranges[para.first + k] == Range(p.wtStart, p.wtEnd)
  }

  /** So a probe is the start of a text of a paragraph that an element locks by its name, and is narrow there. */
  lemma {:induction false} ProbeIsNarrow(lib: Library, doc: seq<byte>) returns (v: View, k: nat)
    requires ProbeOf(lib, doc).Some?
    ensures ProbesText(lib, doc, v, ProbeOf(lib, doc).value, k)
  {
    hide Scan, Locate, Directs, Paragraphs, ParagraphFlags, OwnKids, Utf8, Probable, Handle, ProbeAt, FirstIn, ProbeQuery, RangesOf,
         FirstOf, StripText, NoneIn, Views, Narrow, IsStart, HasOneOf, ViewOf, Texts;
    var root := lib.parse(doc).value;
    var ranges := RangesOf(doc, lib.calls(doc).0, lib.calls(doc).1, TextCount(root)).value;
    var paras, entries := Paragraphs(root), Directs(Locate(Scan(doc, 0)).value);
    v := ViewOf(lib, doc, [], root, ranges);
    ViewOfViews(lib, doc, [], ranges);
    NoneAtAll(v, paras);
    FirstOfIs(v, paras, entries, 0);
    assert paras[0..] == paras && entries[0..] == entries;
    var n :| 0 <= n < |paras| && NoneIn(v, paras, n) && ProbeOf(lib, doc) == ParaProbe(v, paras[n], n, entries[n].id);
    k := InParagraph(v, paras[n], n, entries[n].id);
    ViewLib(lib, doc, [], root, ranges);
  }

  lemma {:induction false} ViewLib(lib: Library, doc: seq<byte>, others: seq<string>, root: Forest, ranges: seq<Range>)
    ensures ViewOf(lib, doc, others, root, ranges).lib == lib
  {}

  lemma {:induction false} InParagraph(v: View, para: Para, ordinal: nat, id: Option<nat>) returns (k: nat)
    requires ParaProbe(v, para, ordinal, id).Some?
    ensures var p := ParaProbe(v, para, ordinal, id).value;
            && p.ordinal == ordinal && HasOneOf(para.kids, OPAQUE + REVISION + FIELD + CONTROL)
            && k < |OwnKids(para.kids)| && IsStart(v.lib.text(OwnKids(para.kids)[k]), p.query)
            && Narrow(v, para.first + k, p.query) && para.first + k < |v.ranges|
            && v.ranges[para.first + k] == Range(p.wtStart, p.wtEnd)
  {
    hide ParagraphFlags, OwnKids, Utf8, Probable, FirstIn, ProbeQuery, StripText, Narrow, IsStart, HasOneOf;
    var texts, flags := Texts(v.lib, OwnKids(para.kids)), ParagraphFlags(para.kids);
    FlagsByName(para.kids);
    FirstInIs(v, texts, para.first, ordinal, id, flags);
    k :| 0 <= k < |texts| && Probable(v, para.first + k, texts[k])
         && ParaProbe(v, para, ordinal, id) == ProbeAt(v, para.first + k, texts[k], ordinal, id, flags);
    QueryIsStart(texts[k]);
    ProbableExactly(v, para.first + k, texts[k]);
    NarrowBounds(v, para.first + k, ProbeQuery(texts[k]));
  }

  lemma {:induction false} NarrowBounds(v: View, index: nat, query: string)
    requires Narrow(v, index, query)
    ensures index < |v.ranges|
  {
    hide Utf8, Once, OnceBetween, OneText;
  }

  // ----- the names of paragraphs -----

  /** A name is `P` and the number in decimal, without a zero in front. */
  lemma {:induction false} NameIs(k: nat)
    ensures var name := ParagraphName(k);
            |name| >= 2 && name[0] == 'P' && (k == 0 ==> name == "P0") && (k > 0 ==> name[1] != '0')
  {
    DecimalDigits(k);
    NoZeroInFront(k);
  }

  lemma {:induction false} NoZeroInFront(k: nat)
    ensures Decimal(k) != [] && (k > 0 ==> Decimal(k)[0] != '0')
  {
    if k >= 10 {
      NoZeroInFront(k / 10);
    }
  }

  /** A name is read when it is a `P` with ASCII digits behind it, one at least, and as the number they write. */
  lemma {:induction false} NumberExactly(s: string)
    ensures ParagraphNumber(s).Some? <==>
            |s| >= 2 && s[0] == 'P' && forall i :: 1 <= i < |s| ==> 48 <= s[i] as int <= 57
    ensures ParagraphNumber(s).Some? && |s| == 2 ==> ParagraphNumber(s) == Some(s[1] as int - 48)
    ensures ParagraphNumber(s).Some? && |s| > 2 ==>
              ParagraphNumber(s[..|s| - 1]).Some?
              && ParagraphNumber(s) == Some(10 * ParagraphNumber(s[..|s| - 1]).value + (s[|s| - 1] as int - 48))
  {
    if ParagraphNumber(s).Some? {
      var digits := s[1..];
      assert digits[|digits| - 1] == s[|s| - 1] && Digit(s[|s| - 1]);
      if |s| == 2 {
        assert digits[..0] == [];
        assert Value([]) == 0;
      } else {
        var init := s[..|s| - 1];
        forall i | 1 <= i < |init| ensures Digit(init[i]) {
          assert init[i] == s[i] && Digit(s[i]);
        }
        assert init[1..] == digits[..|digits| - 1];
      }
    }
  }
}
