/** `select_unsupported` and the rules that let a refusal be believed. */
module Probe {
  import opened Sequences
  import opened Scanner
  import opened Locator
  import opened LocatorResults
  import opened TextRanges
  import opened TextPairing
  import opened Queries
  import opened Target
  import opened TargetFacts

  // ----- refusals -----

  /** `_code_matches_structure`; an unknown code never matches. */
  predicate CodeMatches(code: string, f: Flags) {
    (code == "opaque-paragraph-mutated" && f.opaqueContent)
    || (code == "prose-edit-unsupported" && (f.field || f.sdt))
    || (code == "revision-text-mutated-in-direct-mode" && f.revision)
    || (code == "match-spans-leaves" && (f.field || f.opaqueContent))
    || (code == "edit-span-crosses-revision-boundary" && f.revision)
    || (code == "cross-leaf-edit" && f.Any())
  }

  function Decimal(n: nat): string {
    if n < 10 then [(n + 48) as char] else Decimal(n / 10) + [(n % 10 + 48) as char]
  }

  /** `P{k}` */
  function ParagraphName(k: nat): string {
    "P" + Decimal(k)
  }

  function Value(digits: string): nat
    requires forall i :: 0 <= i < |digits| ==> Digit(digits[i])
  {
    if digits == [] then 0
    else
      assert Digit(digits[|digits| - 1]);
      Value(digits[..|digits| - 1]) * 10 + (digits[|digits| - 1] as int - 48)
  }

  /** The number in a string of the form `P\d+`. */
  function ParagraphNumber(s: string): Option<nat> {
    if |s| >= 2 && s[0] == 'P' && forall i :: 1 <= i < |s| ==> Digit(s[i]) then Some(Value(s[1..])) else None
  }

  lemma {:induction false} DecimalDigits(n: nat)
    ensures Decimal(n) != [] && forall i :: 0 <= i < |Decimal(n)| ==> Digit(Decimal(n)[i])
  {
    if n >= 10 {
      DecimalDigits(n / 10);
    }
  }

  lemma {:induction false} ValueOfDecimal(n: nat)
    ensures forall i :: 0 <= i < |Decimal(n)| ==> Digit(Decimal(n)[i])
    ensures Value(Decimal(n)) == n
  {
    DecimalDigits(n);
    var d := Decimal(n);
    if n < 10 {
      assert d[..0] == [];
      assert Value([]) == 0;
    } else {
      DecimalDigits(n / 10);
      ValueOfDecimal(n / 10);
      assert d[..|d| - 1] == Decimal(n / 10);
    }
  }

  /** Reading the name of a paragraph gives its number back, so different paragraphs have different names. */
  lemma {:induction false} ParagraphNumberOfName(k: nat)
    ensures ParagraphNumber(ParagraphName(k)) == Some(k)
  {
    DecimalDigits(k);
    ValueOfDecimal(k);
    var s := ParagraphName(k);
    assert s[1..] == Decimal(k);
    forall i | 1 <= i < |s| ensures Digit(s[i]) {
      assert s[i] == Decimal(k)[i - 1];
    }
  }

  /** The engine's name of a paragraph against the source's; a located entry without an id matches nothing. */
  predicate SameParagraph(engine: string, source: Option<nat>) {
    source.Some? && engine == ParagraphName(source.value)
  }

  datatype ProbeTarget = ProbeTarget(paragraphId: Option<nat>, ordinal: nat, wtStart: nat, wtEnd: nat, queryStart: nat,
                                     queryEnd: nat, flags: Flags, query: string)

  /** `refusal_justified` */
  predicate RefusalJustified(p: ProbeTarget, engineParagraph: string, code: string) {
    SameParagraph(engineParagraph, p.paragraphId) && CodeMatches(code, p.flags)
  }

  // ----- select_unsupported -----

  predicate Blank(c: char) {
    c == ' ' || '\t' <= c <= '\r' || '\U{1c}' <= c <= '\U{1f}' || c == '\U{85}' || c == '\U{a0}' || c == '\U{1680}'
    || '\U{2000}' <= c <= '\U{200a}' || c == '\U{2028}' || c == '\U{2029}' || c == '\U{202f}' || c == '\U{205f}'
    || c == '\U{3000}'
  }

  /** Python's `str.strip()` */
  function StripText(s: string): string {
    if s != [] && Blank(s[0]) then StripText(s[1..])
    else if s != [] && Blank(s[|s| - 1]) then StripText(s[..|s| - 1])
    else s
  }

  function ProbeQuery(text: string): string {
    var t := StripText(text);
    if |t| > 32 then t[..32] else t
  }

  /** The tests one `w:t` of a locked paragraph must pass. */
  predicate Probable(v: View, index: nat, text: string) {
    var q := ProbeQuery(text);
    var qb := Utf8(q);
    && |StripText(text)| >= 2
    && FoldedCount(v.lib, v.texts, v.lib.fold(q)) == 1
    && PyCount(v.doc, qb) == 1
    && index < |v.ranges|
    && PyCount(PySlice(v.doc, v.ranges[index].start, v.ranges[index].end), qb) == 1
  }

  lemma {:induction false} Utf8NonEmpty(s: string)
    requires s != []
    ensures Utf8(s) != []
  {}

  /** What a probe is: a locked paragraph of the parsed tree, named by its located entry, and one of its texts. */
  ghost predicate IsProbe(lib: Library, doc: seq<byte>, p: ProbeTarget) {
    && lib.parse(doc).Some?
    && var root := lib.parse(doc).value;
       var located := Locate(Scan(doc, 0));
       && located.Some?
       && var paras, entries := Paragraphs(root), Directs(located.value);
          && |entries| == |paras| && p.ordinal < |paras|
          && p.paragraphId == entries[p.ordinal].id
          && p.flags == ParagraphFlags(paras[p.ordinal].kids) && p.flags.Any()
          && p.query != [] && At(doc, Utf8(p.query), p.queryStart) && p.queryEnd == p.queryStart + |Utf8(p.query)|
          && p.wtStart <= p.queryStart && p.queryEnd <= p.wtEnd
          && Count(doc, Utf8(p.query), 0) == 1
  }

  // ----- the first probe in document order -----

  lemma {:induction false} ProbablePlace(v: View, index: nat, text: string)
    requires Probable(v, index, text)
    ensures ProbeQuery(text) != [] && Utf8(ProbeQuery(text)) != []
    ensures Find(PySlice(v.doc, v.ranges[index].start, v.ranges[index].end), Utf8(ProbeQuery(text)), 0) >= 0
  {
    hide Utf8, StripText, FoldedCount;
    Utf8NonEmpty(ProbeQuery(text));
    CountOne(PySlice(v.doc, v.ranges[index].start, v.ranges[index].end), Utf8(ProbeQuery(text)));
  }

  /** The probe a text yields, if it passes the tests. */
  function ProbeAt(v: View, index: nat, text: string, ordinal: nat, id: Option<nat>, flags: Flags): Option<ProbeTarget> {
    if !Probable(v, index, text) then None
    else
      ProbablePlace(v, index, text);
      var query := ProbeQuery(text);
      var (a, b) := (v.ranges[index].start, v.ranges[index].end);
      var place := a + Find(PySlice(v.doc, a, b), Utf8(query), 0);
      Some(ProbeTarget(id, ordinal, a, b, place, place + |Utf8(query)|, flags, query))
  }

  /** The first probe among the texts of one locked paragraph, the first of which has the given index. */
  function FirstIn(v: View, texts: seq<string>, index: nat, ordinal: nat, id: Option<nat>, flags: Flags): Option<ProbeTarget> {
    if texts == [] then None
    else
      var p := ProbeAt(v, index, texts[0], ordinal, id, flags);
      if p.Some? then p else FirstIn(v, texts[1..], index + 1, ordinal, id, flags)
  }

  function ParaProbe(v: View, p: Para, ordinal: nat, id: Option<nat>): Option<ProbeTarget> {
    var flags := ParagraphFlags(p.kids);
    if flags.Any() then FirstIn(v, Texts(v.lib, OwnKids(p.kids)), p.first, ordinal, id, flags) else None
  }

  /** The first probe of the paragraphs, the first of which has the given ordinal. */
  function FirstOf(v: View, paras: seq<Para>, entries: seq<Entry>, ordinal: nat): Option<ProbeTarget>
    requires |entries| == |paras|
  {
    hide ParaProbe;
    if paras == [] then None
    else
      var p := ParaProbe(v, paras[0], ordinal, entries[0].id);
      if p.Some? then p else FirstOf(v, paras[1..], entries[1..], ordinal + 1)
  }

  /** The probe of a document: none when it cannot be mapped or no text of a locked paragraph passes the tests. */
  function ProbeOf(lib: Library, doc: seq<byte>): Option<ProbeTarget> {
    var root := lib.parse(doc);
    if root.None? then None
    else
      var located := Locate(Scan(doc, 0));
      var paras := Paragraphs(root.value);
      if located.None? || |Directs(located.value)| != |paras| then None
      else
        var ranges := RangesOf(doc, lib.calls(doc).0, lib.calls(doc).1, TextCount(root.value));
        if ranges.None? then None
        else FirstOf(ViewOf(lib, doc, [], root.value, ranges.value), paras, Directs(located.value), 0)
  }

  /** One text of a locked paragraph. */
  method TryProbe(v: View, index: nat, text: string, ordinal: nat, id: Option<nat>, flags: Flags)
    returns (p: Option<ProbeTarget>)
    ensures p == ProbeAt(v, index, text, ordinal, id, flags)
    ensures p.Some? <==> Probable(v, index, text)
  {
    hide Utf8, StripText;
    if |StripText(text)| < 2 {
      return None;
    }
    var query := ProbeQuery(text);
    var qb := Utf8(query);
    if FoldedCount(v.lib, v.texts, v.lib.fold(query)) != 1 {
      return None;
    }
    if PyCount(v.doc, qb) != 1 {
      return None;
    }
    if index >= |v.ranges| {
      return None;
    }
    var a, b := v.ranges[index].start, v.ranges[index].end;
    var inner := PySlice(v.doc, a, b);
    if PyCount(inner, qb) != 1 {
      return None;
    }
    ProbablePlace(v, index, text);
    var place := a + Find(inner, qb, 0);
    p := Some(ProbeTarget(id, ordinal, a, b, place, place + |qb|, flags, query));
  }

  /** A probe stands inside its range, in one place of the whole member. */
  lemma {:induction false} ProbeAtIs(v: View, index: nat, text: string, ordinal: nat, id: Option<nat>, flags: Flags)
    requires Marked(v.doc, v.ranges) && Probable(v, index, text)
    ensures var t := ProbeAt(v, index, text, ordinal, id, flags).value;
            && t.ordinal == ordinal && t.paragraphId == id && t.flags == flags
            && t.query != [] && At(v.doc, Utf8(t.query), t.queryStart)
            && t.queryEnd == t.queryStart + |Utf8(t.query)|
            && t.wtStart <= t.queryStart && t.queryEnd <= t.wtEnd && Count(v.doc, Utf8(t.query), 0) == 1
  {
    hide Utf8, StripText, FoldedCount;
    ProbablePlace(v, index, text);
    var (a, b) := (v.ranges[index].start, v.ranges[index].end);
    InnerOccurrence(v.doc, Utf8(ProbeQuery(text)), a, b, Find(PySlice(v.doc, a, b), Utf8(ProbeQuery(text)), 0));
  }

  /** The k-th `w:t` of a paragraph is no probe. */
  ghost predicate NoneHere(v: View, p: Para, k: nat)
    requires k < TextCount(p.kids)
  {
    !Probable(v, p.first + k, v.lib.text(OwnKids(p.kids)[k]))
  }

  /** No text of a locked paragraph passes the tests. */
  ghost predicate NoneIn(v: View, paras: seq<Para>, count: nat)
    requires count <= |paras|
  {
    forall o, k :: 0 <= o < count && ParagraphFlags(paras[o].kids).Any() && 0 <= k < TextCount(paras[o].kids) ==>
      NoneHere(v, paras[o], k)
  }

  /** Every document that can be mapped at all has been searched in full. */
  ghost predicate NoProbe(lib: Library, doc: seq<byte>) {
    lib.parse(doc).Some? ==>
      var root := lib.parse(doc).value;
      var located := Locate(Scan(doc, 0));
      var ranges := RangesOf(doc, lib.calls(doc).0, lib.calls(doc).1, TextCount(root));
      var paras := Paragraphs(root);
      located.Some? && ranges.Some? && |Directs(located.value)| == |paras| ==>
        NoneIn(ViewOf(lib, doc, [], root, ranges.value), paras, |paras|)
  }

  /** The first probe among some texts is that of one of them, and none before it yields one. */
  lemma {:induction false} FirstInIs(v: View, texts: seq<string>, index: nat, ordinal: nat, id: Option<nat>, flags: Flags)
    ensures var p := FirstIn(v, texts, index, ordinal, id, flags);
            if p.None? then forall k :: 0 <= k < |texts| ==> !Probable(v, index + k, texts[k])
            else exists k :: 0 <= k < |texts| && Probable(v, index + k, texts[k])
                        && p == ProbeAt(v, index + k, texts[k], ordinal, id, flags)
                        && forall j :: 0 <= j < k ==> !Probable(v, index + j, texts[j])
    decreases |texts|
  {
    hide Probable, Utf8, ProbeQuery;
    if texts != [] {
      if Probable(v, index, texts[0]) {
        assert index + 0 == index;
      } else {
        FirstInIs(v, texts[1..], index + 1, ordinal, id, flags);
        assert forall k :: 0 < k < |texts| ==> texts[k] == texts[1..][k - 1];
        var p := FirstIn(v, texts, index, ordinal, id, flags);
        if p.Some? {
          var k :| 0 <= k < |texts[1..]| && Probable(v, index + 1 + k, texts[1..][k])
                   && p == ProbeAt(v, index + 1 + k, texts[1..][k], ordinal, id, flags)
                   && forall j :: 0 <= j < k ==> !Probable(v, index + 1 + j, texts[1..][j]);
          forall j | 0 <= j < k + 1 ensures !Probable(v, index + j, texts[j]) {
            if j > 0 {
              assert index + 1 + (j - 1) == index + j;
            }
          }
          assert index + 1 + k == index + (k + 1);
        } else {
          forall j | 0 <= j < |texts| ensures !Probable(v, index + j, texts[j]) {
            if j > 0 {
              assert index + 1 + (j - 1) == index + j;
            }
          }
        }
      }
    }
  }

  /** `p` is what the first paragraph with a probe yields, or there is none at all. */
  ghost predicate FromFirst(v: View, paras: seq<Para>, entries: seq<Entry>, p: Option<ProbeTarget>)
    requires |entries| == |paras|
  {
    hide ParaProbe, NoneHere;
    if p.None? then NoneIn(v, paras, |paras|)
    else exists n :: 0 <= n < |paras| && NoneIn(v, paras, n) && p == ParaProbe(v, paras[n], n, entries[n].id)
  }

  /** No text of a locked paragraph before the o-th one passes the tests. */
  lemma {:induction false} FirstOfIs(v: View, paras: seq<Para>, entries: seq<Entry>, o: nat)
    requires |entries| == |paras| && o <= |paras| && NoneIn(v, paras, o)
    ensures FromFirst(v, paras, entries, FirstOf(v, paras[o..], entries[o..], o))
    decreases |paras| - o
  {
    hide Probable, FirstIn, OwnKids, ParagraphFlags;
    if o < |paras| {
      assert paras[o..][1..] == paras[o + 1..] && entries[o..][1..] == entries[o + 1..];
      if ParaProbe(v, paras[o], o, entries[o].id).None? {
        NoneInNext(v, paras, o, entries[o].id);
        FirstOfIs(v, paras, entries, o + 1);
      }
    }
  }

  lemma {:induction false} NoneInNext(v: View, paras: seq<Para>, o: nat, id: Option<nat>)
    requires o < |paras| && NoneIn(v, paras, o) && ParaProbe(v, paras[o], o, id).None?
    ensures NoneIn(v, paras, o + 1)
  {
    hide Probable, OwnKids, FirstIn, ParagraphFlags;
    var p := paras[o];
    if ParagraphFlags(p.kids).Any() {
      var texts := Texts(v.lib, OwnKids(p.kids));
      FirstInIs(v, texts, p.first, o, id, ParagraphFlags(p.kids));
      forall k | 0 <= k < TextCount(p.kids) ensures NoneHere(v, p, k) {
        assert texts[k] == v.lib.text(OwnKids(p.kids)[k]);
      }
    }
  }

  /** What the probe of a document is, and what it means that there is none. */
  lemma {:induction false} ProbeOfIs(lib: Library, doc: seq<byte>)
    ensures var p := ProbeOf(lib, doc);
            if p.Some? then IsProbe(lib, doc, p.value) else NoProbe(lib, doc)
  {
    hide Scan, Locate, Directs, Paragraphs, ParagraphFlags, OwnKids, Texts, Utf8, Probable, Handle, Marked, ProbeAt, FirstIn,
         Count, At, FirstOf, StripText, NoneIn;
    if ProbeOf(lib, doc).Some? || lib.parse(doc).Some? {
      var root := lib.parse(doc).value;
      var located := Locate(Scan(doc, 0));
      var ranges := RangesOf(doc, lib.calls(doc).0, lib.calls(doc).1, TextCount(root));
      var paras := Paragraphs(root);
      if located.Some? && ranges.Some? && |Directs(located.value)| == |paras| {
        var v := ViewOf(lib, doc, [], root, ranges.value);
        var entries := Directs(located.value);
        MarkedNone(doc);
        MarkedRanges(doc, FRESH, lib.calls(doc).0);
        NoneAtAll(v, paras);
        FirstOfIs(v, paras, entries, 0);
        assert paras[0..] == paras && entries[0..] == entries;
        if ProbeOf(lib, doc).Some? {
          var n :| 0 <= n < |paras| && NoneIn(v, paras, n) && ProbeOf(lib, doc) == ParaProbe(v, paras[n], n, entries[n].id);
          var texts, flags := Texts(lib, OwnKids(paras[n].kids)), ParagraphFlags(paras[n].kids);
          FirstInIs(v, texts, paras[n].first, n, entries[n].id, flags);
          var k :| 0 <= k < |texts| && Probable(v, paras[n].first + k, texts[k])
                   && ProbeOf(lib, doc) == ProbeAt(v, paras[n].first + k, texts[k], n, entries[n].id, flags);
          ProbeAtIs(v, paras[n].first + k, texts[k], n, entries[n].id, flags);
        }
      }
    }
  }

  lemma {:induction false} NoneAtAll(v: View, paras: seq<Para>)
    ensures NoneIn(v, paras, 0)
  {}

  /** `select_unsupported` */
  method SelectUnsupported(lib: Library, docxml: seq<byte>) returns (p: Option<ProbeTarget>)
    ensures p == ProbeOf(lib, docxml)
  {
    hide Scan, Locate, Directs, Paragraphs, ParagraphFlags, OwnKids, Utf8, Probable, Handle, ProbeAt, StripText;
    var root := lib.parse(docxml);
    if root.None? {
      return None;
    }
    var located := LocateParagraphs(docxml);
    if located.None? {
      return None;
    }
    var paras, entries := Paragraphs(root.value), Directs(located.value);
    if |entries| != |paras| {
      return None;
    }
    var (calls, parsed) := lib.calls(docxml);
    var ranges := WtRanges(docxml, calls, parsed, TextCount(root.value));
    if ranges.None? {
      return None;
    }
    var v := ViewOf(lib, docxml, [], root.value, ranges.value);
    assert paras[0..] == paras && entries[0..] == entries;
    for ordinal := 0 to |paras|
      invariant ProbeOf(lib, docxml) == FirstOf(v, paras[ordinal..], entries[ordinal..], ordinal)
    {
      assert paras[ordinal..][1..] == paras[ordinal + 1..] && entries[ordinal..][1..] == entries[ordinal + 1..];
      var flags := ParagraphFlags(paras[ordinal].kids);
      if !flags.Any() {
        continue;
      }
      var texts := Texts(lib, OwnKids(paras[ordinal].kids));
      var first, id := paras[ordinal].first, entries[ordinal].id;
      assert texts[0..] == texts;
      for k := 0 to |texts|
        invariant FirstIn(v, texts, first, ordinal, id, flags) == FirstIn(v, texts[k..], first + k, ordinal, id, flags)
      {
        assert texts[k..][1..] == texts[k + 1..];
        p := TryProbe(v, first + k, texts[k], ordinal, id, flags);
        if p.Some? {
          return;
        }
      }
    }
    p := None;
  }
}
