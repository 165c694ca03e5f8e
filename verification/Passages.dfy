/** Picking three passages for the review handoff: counting over joined paragraphs, one passage to a paragraph. */
module Passages {
  import opened Sequences
  import opened Queries
  import P = Probe

  // ----- counting over joined text -----

  const NEWLINE: char := '\n'

  /** `"\n".join(paragraphs)` */
  function JoinLines(paras: seq<string>): string {
    if paras == [] then []
    else if |paras| == 1 then paras[0]
    else JoinLines(paras[..|paras| - 1]) + [NEWLINE] + paras[|paras| - 1]
  }

  function Total(paras: seq<string>, phrase: string): nat
    requires phrase != []
  {
    if paras == [] then 0 else Total(paras[..|paras| - 1], phrase) + Count(paras[|paras| - 1], phrase, 0)
  }

  lemma {:induction false} AtLeft(a: string, c: char, b: string, phrase: string, i: nat)
    requires c !in phrase && i <= |a|
    ensures At(a + [c] + b, phrase, i) && phrase != [] <==> At(a, phrase, i) && phrase != []
  {
    var s := a + [c] + b;
    if phrase != [] {
      if i + |phrase| <= |a| {
        assert s[i..i + |phrase|] == a[i..i + |phrase|];
      } else if i + |phrase| <= |s| {
        NotAt(s, phrase, i, |a| - i);
      }
    }
  }

  lemma {:induction false} AtShift(x: string, b: string, phrase: string, i: nat)
    ensures At(x + b, phrase, |x| + i) <==> At(b, phrase, i)
  {
    if i + |phrase| <= |b| {
      assert (x + b)[|x| + i..|x| + i + |phrase|] == b[i..i + |phrase|];
    }
  }

  lemma {:induction false} FindShift(x: string, b: string, phrase: string, k: nat)
    ensures Find(x + b, phrase, |x| + k) == if Find(b, phrase, k) < 0 then -1 else |x| + Find(b, phrase, k)
    decreases |b| - k
  {
    if k + |phrase| <= |b| {
      AtShift(x, b, phrase, k);
      if !At(b, phrase, k) {
        FindShift(x, b, phrase, k + 1);
      }
    }
  }

  lemma {:induction false} CountShift(x: string, b: string, phrase: string, k: nat)
    requires phrase != []
    ensures Count(x + b, phrase, |x| + k) == Count(b, phrase, k)
    decreases |b| - k
  {
    hide At, Find;
    FindShift(x, b, phrase, k);
    var r := Find(b, phrase, k);
    if r >= 0 {
      OccurrenceFits(b, phrase, r);
      CountShift(x, b, phrase, r + |phrase|);
      assert |x| + r + |phrase| == |x| + (r + |phrase|);
    }
  }

  /** Where the phrase is not found any more in the left part, counting goes on in the right part. */
  lemma {:induction false} CountPastLeft(a: string, c: char, b: string, phrase: string, from: nat)
    requires phrase != [] && c !in phrase && from <= |a| && Find(a, phrase, from) < 0
    ensures Count(a + [c] + b, phrase, from) == Count(b, phrase, 0)
  {
    hide At;
    var s, x := a + [c] + b, a + [c];
    forall i | from <= i <= |a| ensures !At(s, phrase, i) {
      AtLeft(a, c, b, phrase, i);
    }
    CountShift(x, b, phrase, 0);
    var r := Find(s, phrase, |x|);
    if r >= 0 {
      FindIs(s, phrase, from, r);
    }
    assert Find(s, phrase, from) == r;
  }

  lemma {:induction false} CountAcross(a: string, c: char, b: string, phrase: string, from: nat)
    requires phrase != [] && c !in phrase && from <= |a|
    ensures Count(a + [c] + b, phrase, from) == Count(a, phrase, from) + Count(b, phrase, 0)
    decreases |a| - from
  {
    hide At;
    var s, r := a + [c] + b, Find(a, phrase, from);
    if r < 0 {
      CountPastLeft(a, c, b, phrase, from);
    } else {
      OccurrenceFits(a, phrase, r);
      forall i | from <= i <= r ensures At(s, phrase, i) <==> At(a, phrase, i) {
        AtLeft(a, c, b, phrase, i);
      }
      FindIs(s, phrase, from, r);
      CountAcross(a, c, b, phrase, r + |phrase|);
    }
  }

  lemma {:induction false} OccurrenceFits(s: string, phrase: string, i: int)
    requires At(s, phrase, i)
    ensures 0 <= i && i + |phrase| <= |s|
  {}

  /** For a phrase without a line break, the count in the joined text is the sum of the counts in the paragraphs. */
  lemma {:induction false} JoinedCount(paras: seq<string>, phrase: string)
    requires phrase != [] && NEWLINE !in phrase
    ensures Count(JoinLines(paras), phrase, 0) == Total(paras, phrase)
  {
    hide NEWLINE;
    if |paras| == 1 {
      assert paras[..0] == [];
    } else if |paras| > 1 {
      JoinedCount(paras[..|paras| - 1], phrase);
      CountAcross(JoinLines(paras[..|paras| - 1]), NEWLINE, paras[|paras| - 1], phrase, 0);
    }
  }

  /** The paragraph has the phrase once, and no other paragraph has it at all. */
  ghost predicate OnlyIn(paras: seq<string>, phrase: string, k: nat) {
    phrase != [] && k < |paras|
    && forall j :: 0 <= j < |paras| ==> Count(paras[j], phrase, 0) == if j == k then 1 else 0
  }

  lemma {:induction false} TotalZero(paras: seq<string>, phrase: string)
    requires phrase != [] && Total(paras, phrase) == 0
    ensures forall j :: 0 <= j < |paras| ==> Count(paras[j], phrase, 0) == 0
  {
    hide Count;
    if paras != [] {
      TotalZero(paras[..|paras| - 1], phrase);
    }
  }

  lemma {:induction false} TotalOne(paras: seq<string>, phrase: string) returns (k: nat)
    requires phrase != [] && Total(paras, phrase) == 1
    ensures OnlyIn(paras, phrase, k)
  {
    hide Count;
    var init, last := paras[..|paras| - 1], Count(paras[|paras| - 1], phrase, 0);
    if last == 0 {
      k := TotalOne(init, phrase);
      forall j | 0 <= j < |paras| ensures Count(paras[j], phrase, 0) == if j == k then 1 else 0 {
        if j < |init| {
          assert init[j] == paras[j];
        }
      }
    } else {
      TotalZero(init, phrase);
      k := |init|;
      forall j | 0 <= j < |init| ensures Count(paras[j], phrase, 0) == 0 {
        assert init[j] == paras[j];
      }
    }
  }

  lemma {:induction false} TotalOfOnly(paras: seq<string>, phrase: string, k: nat)
    requires OnlyIn(paras, phrase, k)
    ensures Total(paras, phrase) == 1
  {
    hide Count;
    var init := paras[..|paras| - 1];
    if k == |init| {
      NoneTotal(init, phrase);
    } else {
      TotalOfOnly(init, phrase, k);
    }
  }

  lemma {:induction false} NoneTotal(paras: seq<string>, phrase: string)
    requires phrase != [] && forall j :: 0 <= j < |paras| ==> Count(paras[j], phrase, 0) == 0
    ensures Total(paras, phrase) == 0
  {
    hide Count;
    if paras != [] {
      NoneTotal(paras[..|paras| - 1], phrase);
    }
  }

  /** One paragraph has the phrase, once, and no other paragraph has it. */
  ghost predicate InOne(paras: seq<string>, phrase: string) {
    exists k :: OnlyIn(paras, phrase, k)
  }

  /** A joined count of one says: one paragraph has the phrase, once, and the others do not have it. */
  lemma {:induction false} OneInJoined(paras: seq<string>, phrase: string)
    requires phrase != [] && NEWLINE !in phrase
    ensures Count(JoinLines(paras), phrase, 0) == 1 <==> InOne(paras, phrase)
  {
    hide Count, JoinLines, Total, NEWLINE;
    JoinedCount(paras, phrase);
    if Total(paras, phrase) == 1 {
      var k := TotalOne(paras, phrase);
    }
    if k :| OnlyIn(paras, phrase, k) {
      TotalOfOnly(paras, phrase, k);
    }
  }

  // ----- candidates -----

  /** A whitespace character that also ends words. */
  predicate Space(c: char) {
    P.Blank(c)
  }

  /** `str.split()`: the maximal stretches without whitespace. */
  function Words(s: string): (ws: seq<string>)
    decreases |s|
  {
    if s == [] then []
    else if Space(s[0]) then Words(s[1..])
    else [s[..WordEnd(s)]] + Words(s[WordEnd(s)..])
  }

  /** The length of the word at the start. */
  function WordEnd(s: string): (n: nat)
    ensures n <= |s| && (s != [] && !Space(s[0]) ==> n > 0)
    ensures forall i :: 0 <= i < n ==> !Space(s[i])
    ensures n < |s| ==> Space(s[n])
  {
    if s == [] || Space(s[0]) then 0 else 1 + WordEnd(s[1..])
  }

  function JoinWords(ws: seq<string>): string {
    if ws == [] then [] else if |ws| == 1 then ws[0] else JoinWords(ws[..|ws| - 1]) + [' '] + ws[|ws| - 1]
  }

  /** The characters a passage may have; which characters are alphanumeric is a parameter. */
  predicate PassageChars(alnum: char -> bool, s: string) {
    forall i :: 0 <= i < |s| ==> alnum(s[i]) || Space(s[i]) || '\U{4e00}' <= s[i] <= '\U{9fff}'
  }

  predicate Fits(alnum: char -> bool, cand: string) {
    12 <= |cand| <= 40 && PassageChars(alnum, cand)
  }

  /** The candidates of one width, from the first n starting words. */
  function OfWidth(alnum: char -> bool, ws: seq<string>, width: nat, n: nat): seq<string>
    requires n == 0 || n - 1 + width <= |ws|
  {
    if n == 0 then []
    else
      var cand := JoinWords(ws[n - 1..n - 1 + width]);
      OfWidth(alnum, ws, width, n - 1) + if Fits(alnum, cand) then [cand] else []
  }

  function Starts(ws: seq<string>, width: nat): nat {
    if |ws| >= width then |ws| - width + 1 else 0
  }

  /** `list(dict.fromkeys(items))` */
  function Firsts(items: seq<string>): seq<string> {
    if items == [] then []
    else
      var before, last := Firsts(items[..|items| - 1]), items[|items| - 1];
      if last in before then before else before + [last]
  }

  function Candidates(alnum: char -> bool, leaf: string): seq<string> {
    var ws := Words(leaf);
    Firsts(OfWidth(alnum, ws, 4, Starts(ws, 4)) + OfWidth(alnum, ws, 3, Starts(ws, 3)))
  }

  /** `_leaf_candidate` */
  method LeafCandidate(alnum: char -> bool, leaf: string) returns (cands: seq<string>)
    ensures cands == Candidates(alnum, leaf)
  {
    hide Words, Fits, JoinWords;
    var ws := Words(leaf);
    var wide := CandidatesOfWidth(alnum, ws, 4);
    var narrow := CandidatesOfWidth(alnum, ws, 3);
    var out := wide + narrow;
    cands := [];
    for n := 0 to |out|
      invariant cands == Firsts(out[..n])
    {
      assert out[..n + 1][..n] == out[..n];
      if out[n] !in cands {
        cands := cands + [out[n]];
      }
    }
    assert out[..|out|] == out;
  }

  method CandidatesOfWidth(alnum: char -> bool, ws: seq<string>, width: nat) returns (out: seq<string>)
    requires width > 0
    ensures out == OfWidth(alnum, ws, width, Starts(ws, width))
  {
    hide Fits, JoinWords;
    out := [];
    for i := 0 to Starts(ws, width)
      invariant out == OfWidth(alnum, ws, width, i)
    {
      var cand := JoinWords(ws[i..i + width]);
      if Fits(alnum, cand) {
        out := out + [cand];
      }
    }
  }

  lemma {:induction false} WordsAreUnbroken(s: string)
    ensures forall w :: w in Words(s) ==> w != [] && forall i :: 0 <= i < |w| ==> !Space(w[i])
    decreases |s|
  {
    hide Space;
    if s != [] {
      if Space(s[0]) {
        WordsAreUnbroken(s[1..]);
      } else {
        WordsAreUnbroken(s[WordEnd(s)..]);
      }
    }
  }

  predicate Breakless(s: string) {
    forall i :: 0 <= i < |s| ==> s[i] != NEWLINE
  }

  lemma {:induction false} JoinWordsBreakless(ws: seq<string>)
    requires forall w :: w in ws ==> Breakless(w)
    ensures Breakless(JoinWords(ws))
  {
    if ws != [] {
      JoinWordsBreakless(ws[..|ws| - 1]);
      assert Breakless(ws[|ws| - 1]);
    }
  }

  lemma {:induction false} OfWidthBreakless(alnum: char -> bool, ws: seq<string>, width: nat, n: nat)
    requires (n == 0 || n - 1 + width <= |ws|) && forall w :: w in ws ==> Breakless(w)
    ensures forall c :: c in OfWidth(alnum, ws, width, n) ==> Fits(alnum, c) && Breakless(c)
  {
    hide Breakless, Fits;
    if n > 0 {
      OfWidthBreakless(alnum, ws, width, n - 1);
      JoinWordsBreakless(ws[n - 1..n - 1 + width]);
    }
  }

  lemma {:induction false} FirstsMembers(items: seq<string>)
    ensures forall x :: x in Firsts(items) <==> x in items
  {
    if items != [] {
      FirstsMembers(items[..|items| - 1]);
      assert items == items[..|items| - 1] + [items[|items| - 1]];
    }
  }

  /** Every candidate is of passage length and has no line break. */
  lemma {:induction false} CandidateFacts(alnum: char -> bool, leaf: string)
    ensures forall c :: c in Candidates(alnum, leaf) ==> Fits(alnum, c) && NEWLINE !in c && c != []
  {
    hide Words, OfWidth, Firsts, PassageChars;
    var ws := Words(leaf);
    WordsAreUnbroken(leaf);
    forall w | w in ws ensures Breakless(w) {}
    OfWidthBreakless(alnum, ws, 4, Starts(ws, 4));
    OfWidthBreakless(alnum, ws, 3, Starts(ws, 3));
    FirstsMembers(OfWidth(alnum, ws, 4, Starts(ws, 4)) + OfWidth(alnum, ws, 3, Starts(ws, 3)));
  }

  // ----- picking -----

  datatype Pick = Pick(passage: string, index: nat)

  /** All paragraphs in document order with their text, the raw member, and the leaves of each child `p` of the body. */
  datatype Doc = Doc(paras: seq<string>, raw: seq<byte>, leaves: seq<seq<string>>)

  predicate Within(a: string, b: string) {
    Find(b, a, 0) >= 0
  }

  predicate Clear(picked: seq<Pick>, cand: string) {
    forall k :: 0 <= k < |picked| ==> !Within(cand, picked[k].passage) && !Within(picked[k].passage, cand)
  }

  /** The tests of one candidate. */
  predicate Suits(d: Doc, picked: seq<Pick>, cand: string)
    requires cand != [] && Utf8(cand) != []
  {
    Count(JoinLines(d.paras), cand, 0) == 1 && Count(d.raw, Utf8(cand), 0) == 1 && Clear(picked, cand)
  }

  predicate Suitable(d: Doc, picked: seq<Pick>, cand: string) {
    cand != [] && Utf8(cand) != [] && Suits(d, picked, cand)
  }

  function FirstSuitable(d: Doc, picked: seq<Pick>, cands: seq<string>): Option<string> {
    if cands == [] then None
    else if Suitable(d, picked, cands[0]) then Some(cands[0])
    else FirstSuitable(d, picked, cands[1..])
  }

  /** The first suitable candidate of the first leaf that has one. */
  function FromLeaves(d: Doc, alnum: char -> bool, picked: seq<Pick>, leaves: seq<string>): Option<string> {
    if leaves == [] then None
    else
      var here := if |leaves[0]| < 12 then None else FirstSuitable(d, picked, Candidates(alnum, leaves[0]));
      if here.Some? then here else FromLeaves(d, alnum, picked, leaves[1..])
  }

  function LeavesAt(d: Doc, index: nat): seq<string> {
    if index < |d.leaves| then d.leaves[index] else []
  }

  /** The picks after the first n paragraphs. */
  function Picks(d: Doc, alnum: char -> bool, n: nat): seq<Pick>
    requires n <= |d.paras|
  {
    if n == 0 then []
    else
      var picked := Picks(d, alnum, n - 1);
      if |picked| == 3 || |d.paras[n - 1]| < 40 then picked
      else
        var c := FromLeaves(d, alnum, picked, LeavesAt(d, n - 1));
        if c.None? then picked else picked + [Pick(c.value, n - 1)]
  }

  /** The loop over one paragraph's leaves. The set of claimed candidates stays empty until the loop ends. */
  method PickInParagraph(d: Doc, alnum: char -> bool, before: seq<Pick>, leaves: seq<string>, index: nat)
    returns (picked: seq<Pick>)
    requires forall k :: 0 <= k < |before| ==> before[k].index < index
    ensures var c := FromLeaves(d, alnum, before, leaves);
            picked == if c.None? then before else before + [Pick(c.value, index)]
  {
    hide Candidates, Suitable;
    picked := before;
    var claimed: set<string> := {};
    for n := 0 to |leaves|
      invariant picked == before && claimed == {}
      invariant FromLeaves(d, alnum, before, leaves) == FromLeaves(d, alnum, before, leaves[n..])
    {
      if |leaves[n]| < 12 {
        continue;
      }
      var cands := LeafCandidate(alnum, leaves[n]);
      var j := 0;
      while j < |cands|
        invariant j <= |cands| && picked == before && claimed == {}
        invariant FirstSuitable(d, picked, cands) == FirstSuitable(d, picked, cands[j..])
      {
        if cands[j] !in claimed && Suitable(d, picked, cands[j]) {
          picked := picked + [Pick(cands[j], index)];
          claimed := claimed + {cands[j]};
          break;
        }
        j := j + 1;
      }
      if picked != [] && picked[|picked| - 1].index == index {
        break;
      }
    }
  }

  /** `_pick_targets`; none stands for the harness error. */
  method PickTargets(d: Doc, alnum: char -> bool) returns (r: Option<(Pick, Pick, Pick)>)
    ensures var picks := Picks(d, alnum, |d.paras|);
            if |picks| == 3 then r == Some((picks[0], picks[1], picks[2])) else r == None
  {
    hide FromLeaves;
    var picked: seq<Pick> := [];
    for n := 0 to |d.paras|
      invariant picked == Picks(d, alnum, n) && |picked| < 3
      invariant Ascending(picked, n)
    {
      if |d.paras[n]| < 40 {
        continue;
      }
      var leaves := LeavesAt(d, n);
      if leaves == [] {
        NoLeaves(d, alnum, picked);
        continue;
      }
      picked := PickInParagraph(d, alnum, picked, leaves, n);
      if |picked| == 3 {
        PicksEnd(d, alnum, n + 1, |d.paras|);
        break;
      }
    }
    if |picked| != 3 {
      return None;
    }
    if picked[0].index == picked[1].index || picked[1].index == picked[2].index || picked[0].index == picked[2].index {
      assert false;
    }
    r := Some((picked[0], picked[1], picked[2]));
  }

  ghost predicate Ascending(picked: seq<Pick>, n: nat) {
    && (forall k :: 0 <= k < |picked| ==> picked[k].index < n)
    && (forall j, k :: 0 <= j < k < |picked| ==> picked[j].index < picked[k].index)
  }

  lemma {:induction false} NoLeaves(d: Doc, alnum: char -> bool, picked: seq<Pick>)
    ensures FromLeaves(d, alnum, picked, []) == None
  {}

  lemma {:induction false} PicksEnd(d: Doc, alnum: char -> bool, n: nat, m: nat)
    requires n <= m <= |d.paras| && |Picks(d, alnum, n)| == 3
    ensures Picks(d, alnum, m) == Picks(d, alnum, n)
  {
    if n < m {
      PicksEnd(d, alnum, n, m - 1);
    }
  }

  // ----- what the picks are -----

  lemma {:induction false} FirstSuitableFacts(d: Doc, picked: seq<Pick>, cands: seq<string>)
    requires FirstSuitable(d, picked, cands).Some?
    ensures var c := FirstSuitable(d, picked, cands).value; c in cands && Suitable(d, picked, c)
  {
    hide Suitable;
    if !Suitable(d, picked, cands[0]) {
      FirstSuitableFacts(d, picked, cands[1..]);
    }
  }

  /** The passage comes from a leaf of the child `p` that the index counts. */
  ghost predicate FromLeaf(alnum: char -> bool, leaves: seq<string>, c: string) {
    exists leaf :: leaf in leaves && c in Candidates(alnum, leaf)
  }

  lemma {:induction false} FromLeavesFacts(d: Doc, alnum: char -> bool, picked: seq<Pick>, leaves: seq<string>)
    requires FromLeaves(d, alnum, picked, leaves).Some?
    ensures var c := FromLeaves(d, alnum, picked, leaves).value; FromLeaf(alnum, leaves, c) && Suitable(d, picked, c)
  {
    hide Suitable, Candidates;
    var here := if |leaves[0]| < 12 then None else FirstSuitable(d, picked, Candidates(alnum, leaves[0]));
    if here.Some? {
      FirstSuitableFacts(d, picked, Candidates(alnum, leaves[0]));
    } else {
      FromLeavesFacts(d, alnum, picked, leaves[1..]);
      assert forall leaf :: leaf in leaves[1..] ==> leaf in leaves;
    }
  }

  /** A pick on its own: a passage that is once in the joined text and once in the raw member. */
  ghost predicate GoodPick(d: Doc, alnum: char -> bool, p: Pick) {
    && p.index < |d.paras| && |d.paras[p.index]| >= 40
    && FromLeaf(alnum, LeavesAt(d, p.index), p.passage)
    && Suitable(d, [], p.passage)
  }

  ghost predicate Unrelated(a: Pick, b: Pick) {
    !Within(a.passage, b.passage) && !Within(b.passage, a.passage)
  }

  ghost predicate GoodPicks(d: Doc, alnum: char -> bool, picks: seq<Pick>) {
    && (forall k :: 0 <= k < |picks| ==> GoodPick(d, alnum, picks[k]))
    && (forall j, k :: 0 <= j < k < |picks| ==> Unrelated(picks[j], picks[k]))
  }

  lemma {:induction false} SuitableAlone(d: Doc, picked: seq<Pick>, c: string, index: nat)
    requires Suitable(d, picked, c)
    ensures Suitable(d, [], c) && forall k :: 0 <= k < |picked| ==> Unrelated(picked[k], Pick(c, index))
  {
    hide Within, Count, JoinLines, Utf8;
  }

  lemma {:induction false} OneMorePick(d: Doc, alnum: char -> bool, picked: seq<Pick>, n: nat, c: string)
    requires n < |d.paras| && |d.paras[n]| >= 40 && Ascending(picked, n) && GoodPicks(d, alnum, picked)
    requires FromLeaf(alnum, LeavesAt(d, n), c) && Suitable(d, picked, c)
    ensures Ascending(picked + [Pick(c, n)], n + 1) && GoodPicks(d, alnum, picked + [Pick(c, n)])
  {
    hide Suitable, FromLeaf, Unrelated, LeavesAt;
    SuitableAlone(d, picked, c, n);
  }

  lemma {:induction false} PicksFacts(d: Doc, alnum: char -> bool, n: nat)
    requires n <= |d.paras|
    ensures |Picks(d, alnum, n)| <= 3 && Ascending(Picks(d, alnum, n), n) && GoodPicks(d, alnum, Picks(d, alnum, n))
  {
    hide Suitable, FromLeaves, FromLeaf, GoodPicks, LeavesAt;
    if n == 0 {
      NoPicks(d, alnum);
    } else {
      PicksFacts(d, alnum, n - 1);
      var picked, leaves := Picks(d, alnum, n - 1), LeavesAt(d, n - 1);
      if |picked| != 3 && |d.paras[n - 1]| >= 40 && FromLeaves(d, alnum, picked, leaves).Some? {
        FromLeavesFacts(d, alnum, picked, leaves);
        OneMorePick(d, alnum, picked, n - 1, FromLeaves(d, alnum, picked, leaves).value);
      }
    }
  }

  lemma {:induction false} NoPicks(d: Doc, alnum: char -> bool)
    ensures GoodPicks(d, alnum, [])
  {}

  /**
   The three passages: taken at strictly increasing indices, none part of another, each exactly once in the raw
   member, and each in exactly one paragraph.
   */
  lemma {:induction false} PickedPassages(d: Doc, alnum: char -> bool)
    ensures var picks := Picks(d, alnum, |d.paras|);
            && |picks| <= 3 && Ascending(picks, |d.paras|) && GoodPicks(d, alnum, picks)
            && forall k :: 0 <= k < |picks| ==> InOne(d.paras, picks[k].passage)
  {
    hide InOne, Unrelated, JoinLines, Count, Utf8, Clear;
    PicksFacts(d, alnum, |d.paras|);
    var picks := Picks(d, alnum, |d.paras|);
    forall k | 0 <= k < |picks| ensures InOne(d.paras, picks[k].passage) {
      InOneParagraph(d, alnum, picks[k]);
    }
  }

  lemma {:induction false} InOneParagraph(d: Doc, alnum: char -> bool, p: Pick)
    requires GoodPick(d, alnum, p)
    ensures InOne(d.paras, p.passage)
  {
    hide InOne, JoinLines, Count, Utf8, Clear, Candidates;
    var leaf :| leaf in LeavesAt(d, p.index) && p.passage in Candidates(alnum, leaf);
    CandidateFacts(alnum, leaf);
    OneInJoined(d.paras, p.passage);
  }

  // ----- whether the index names the passage's paragraph -----

  /** Where the children of the body stand among all paragraphs; each one's leaves are part of its text. */
  ghost predicate Laid(d: Doc, direct: seq<nat>) {
    && |direct| == |d.leaves|
    && (forall k :: 0 <= k < |direct| ==> direct[k] < |d.paras|)
    && (forall j, k :: 0 <= j < k < |direct| ==> direct[j] < direct[k])
    && (forall k, leaf :: 0 <= k < |direct| && leaf in d.leaves[k] ==> Within(leaf, d.paras[direct[k]]))
  }

  lemma {:induction false} SliceOfSlice(s: string, j: nat, n: nat, i: nat, m: nat)
    requires j + n <= |s| && i + m <= n
    ensures s[j..j + n][i..i + m] == s[j + i..j + i + m]
  {
    var cut := s[j..j + n];
    var a, b := cut[i..i + m], s[j + i..j + i + m];
    forall k | 0 <= k < m ensures a[k] == b[k] {
      assert a[k] == cut[i + k];
    }
  }

  lemma {:induction false} WithinThrough(a: string, b: string, c: string)
    requires Within(a, b) && Within(b, c)
    ensures Within(a, c)
  {
    var i, j := Find(b, a, 0), Find(c, b, 0);
    assert c[j..j + |b|] == b && b[i..i + |a|] == a;
    SliceOfSlice(c, j, |b|, i, |a|);
    var r := Find(c, a, 0);
    assert At(c, a, j + i);
    assert r >= 0;
  }

  lemma {:induction false} WithinCounts(s: string, a: string)
    requires a != []
    ensures Within(a, s) <==> Count(s, a, 0) > 0
  {}

  /** The first n children of the body come before every other paragraph. */
  ghost predicate InStep(direct: seq<nat>, n: nat)
    requires n <= |direct|
  {
    forall k :: 0 <= k < n ==> direct[k] == k
  }

  lemma {:induction false} AtLeastIndex(d: Doc, direct: seq<nat>, k: nat)
    requires Laid(d, direct) && k < |direct|
    ensures direct[k] >= k
  {
    hide Within;
    if k > 0 {
      AtLeastIndex(d, direct, k - 1);
    }
  }

  lemma {:induction false} InStepBelow(d: Doc, direct: seq<nat>, k: nat)
    requires Laid(d, direct) && k < |direct| && direct[k] == k
    ensures InStep(direct, k + 1)
  {
    hide Within;
    AtLeastIndex(d, direct, k);
    if k > 0 {
      AtLeastIndex(d, direct, k - 1);
      InStepBelow(d, direct, k - 1);
    }
  }

  lemma {:induction false} OnlyHome(paras: seq<string>, phrase: string, k: nat, home: nat)
    requires OnlyIn(paras, phrase, k) && home < |paras|
    ensures Within(phrase, paras[home]) <==> home == k
    ensures OnlyIn(paras, phrase, home) <==> home == k
  {
    hide Within, Count;
    WithinCounts(paras[home], phrase);
  }

  /** For every pick, however its leaf is spaced: its index names its paragraph if and only if the passage stands there. */
  lemma {:induction false} IndexRight(d: Doc, alnum: char -> bool, p: Pick)
    requires GoodPick(d, alnum, p)
    ensures OnlyIn(d.paras, p.passage, p.index) <==> Within(p.passage, d.paras[p.index])
  {
    hide Count, Within, Find, Suitable, FromLeaf;
    InOneParagraph(d, alnum, p);
    var j :| OnlyIn(d.paras, p.passage, j);
    OnlyHome(d.paras, p.passage, j, p.index);
  }

  /**
   For a passage that stands in its leaf as it was joined: its index names its paragraph if and only if no paragraph
   of a table, text box or content control comes before it.
   */
  lemma {:induction false} IndexNamesParagraph(d: Doc, alnum: char -> bool, direct: seq<nat>, p: Pick, leaf: string)
    requires Laid(d, direct) && GoodPick(d, alnum, p)
    requires p.index < |direct| && leaf in d.leaves[p.index] && Within(p.passage, leaf)
    ensures OnlyIn(d.paras, p.passage, direct[p.index])
    ensures OnlyIn(d.paras, p.passage, p.index) <==> InStep(direct, p.index + 1)
  {
    hide Count, Within, Find, Suitable, FromLeaf;
    InOneParagraph(d, alnum, p);
    var home := direct[p.index];
    var j :| OnlyIn(d.paras, p.passage, j);
    WithinThrough(p.passage, leaf, d.paras[home]);
    OnlyHome(d.paras, p.passage, j, home);
    OnlyHome(d.paras, p.passage, j, p.index);
    if home == p.index {
      InStepBelow(d, direct, p.index);
    }
  }

  // ----- two ways to be picked at the wrong index -----

  /** A leaf of three words of four equal letters, the same with two spaces in a row, and what else a paragraph holds. */
  function Leaf(x: char): string {
    [x, x, x, x, ' ', x, x, x, x, ' ', x, x, x, x]
  }

  function Spaced(x: char): string {
    [x, x, x, x, ' ', ' ', x, x, x, x, ' ', x, x, x, x]
  }

  function Filler(): string {
    seq(40, _ => 'z')
  }

  lemma {:induction false} WordEndIs(w: string, rest: string)
    requires (forall i :: 0 <= i < |w| ==> !Space(w[i])) && (rest == [] || Space(rest[0]))
    ensures WordEnd(w + rest) == |w|
  {
    hide Space;
    if w == [] {
      assert w + rest == rest;
    } else {
      assert (w + rest)[1..] == w[1..] + rest;
      WordEndIs(w[1..], rest);
    }
  }

  lemma {:induction false} WordFirst(w: string, rest: string)
    requires w != [] && (forall i :: 0 <= i < |w| ==> !Space(w[i])) && (rest == [] || Space(rest[0]))
    ensures Words(w + rest) == [w] + Words(rest)
  {
    hide Space, WordEnd;
    WordEndIs(w, rest);
    var s := w + rest;
    assert s[..|w|] == w && s[|w|..] == rest && s[0] == w[0];
  }

  lemma {:induction false} NoWords()
    ensures Words([]) == []
  {}

  lemma {:induction false} SpaceSkipped(rest: string)
    ensures Words([' '] + rest) == Words(rest)
  {
    assert ([' '] + rest)[1..] == rest;
  }

  predicate Word4(w: string) {
    |w| == 4 && forall i :: 0 <= i < 4 ==> 'a' <= w[i] <= 'c'
  }

  lemma {:induction false} Word4First(w: string, rest: string)
    requires Word4(w) && (rest == [] || rest[0] == ' ')
    ensures Words(w + rest) == [w] + Words(rest)
  {
    hide Words;
    WordFirst(w, rest);
  }

  lemma {:induction false} ThreeWords(a: string, b: string, c: string)
    requires Word4(a) && Word4(b) && Word4(c)
    ensures Words(a + ([' '] + (b + ([' '] + c)))) == [a, b, c]
    ensures Words(a + ([' '] + ([' '] + (b + ([' '] + c))))) == [a, b, c]
  {
    hide Words, Word4;
    NoWords();
    assert c + [] == c;
    Word4First(c, []);
    var tail := [' '] + c;
    SpaceSkipped(c);
    Word4First(b, tail);
    SpaceSkipped(b + tail);
    SpaceSkipped([' '] + (b + tail));
    Word4First(a, [' '] + (b + tail));
    Word4First(a, [' '] + ([' '] + (b + tail)));
    assert [a] + ([b] + [c]) == [a, b, c];
  }

  lemma {:induction false} SameCandidates(alnum: char -> bool, x: char)
    requires 'a' <= x <= 'c' && alnum(x)
    ensures Candidates(alnum, Leaf(x)) == [Leaf(x)] && Candidates(alnum, Spaced(x)) == [Leaf(x)]
  {
    hide Words;
    var w := [x, x, x, x];
    ThreeWords(w, w, w);
    assert Leaf(x) == w + ([' '] + (w + ([' '] + w)));
    assert Spaced(x) == w + ([' '] + ([' '] + (w + ([' '] + w))));
    assert Words(Leaf(x)) == [w, w, w] && Words(Spaced(x)) == [w, w, w];
    OneCandidate(alnum, x);
  }

  lemma {:induction false} OneCandidate(alnum: char -> bool, x: char)
    requires alnum(x)
    ensures var w := [x, x, x, x]; var ws := [w, w, w];
            Firsts(OfWidth(alnum, ws, 4, Starts(ws, 4)) + OfWidth(alnum, ws, 3, Starts(ws, 3))) == [Leaf(x)]
  {
    var w := [x, x, x, x];
    var ws := [w, w, w];
    assert JoinWords(ws[..1]) == w;
    assert JoinWords(ws[..2]) == w + [' '] + w by {
      assert ws[..2][..1] == ws[..1];
    }
    assert JoinWords(ws[0..3]) == Leaf(x) by {
      assert ws[0..3] == ws && ws[..|ws| - 1] == ws[..2];
    }
    assert OfWidth(alnum, ws, 3, 1) == [Leaf(x)];
    assert Firsts([Leaf(x)]) == [Leaf(x)];
  }

  /** A paragraph that holds the leaf has it once. */
  lemma {:induction false} OnceInOwn(x: char)
    requires x != 'z'
    ensures Count(Leaf(x) + Filler(), Leaf(x), 0) == 1 && Within(Leaf(x), Leaf(x) + Filler())
  {
    var s, q := Leaf(x) + Filler(), Leaf(x);
    assert s[0..|q|] == q;
    assert At(s, q, 0);
    forall j | At(s, q, j) ensures j == 0 {
      ByteAt(s, q, j, 13);
    }
    CountOne(s, q);
  }

  lemma {:induction false} NoneInOther(s: string, x: char)
    requires x !in s
    ensures Count(s, Leaf(x), 0) == 0 && !Within(Leaf(x), s)
  {
    forall j ensures !At(s, Leaf(x), j) {
      NotAt(s, Leaf(x), j, 0);
    }
    CountZero(s, Leaf(x), 0);
  }

  lemma {:induction false} NoneInSpaced(x: char)
    requires x != 'z' && x != ' '
    ensures Count(Spaced(x) + Filler(), Leaf(x), 0) == 0
  {
    var s := Spaced(x) + Filler();
    forall j ensures !At(s, Leaf(x), j) {
      if j == 0 {
        NotAt(s, Leaf(x), j, 5);
      } else if 0 < j <= 4 {
        NotAt(s, Leaf(x), j, 4 - j);
      } else if j == 5 {
        NotAt(s, Leaf(x), j, 0);
      } else {
        NotAt(s, Leaf(x), j, 13);
      }
    }
    CountZero(s, Leaf(x), 0);
  }

  lemma {:induction false} SuitsHere(d: Doc, picked: seq<Pick>, cand: string)
    requires cand != [] && NEWLINE !in cand && Count(d.raw, Utf8(cand), 0) == 1 && InOne(d.paras, cand)
    requires Utf8(cand) != [] && Clear(picked, cand)
    ensures Suitable(d, picked, cand)
  {
    hide Count, JoinLines, Utf8, InOne, Clear;
    OneInJoined(d.paras, cand);
  }

  /** One more paragraph that is long enough, with one leaf that has one candidate, which suits. */
  lemma {:induction false} PickedHere(d: Doc, alnum: char -> bool, n: nat, leaf: string, cand: string)
    requires n < |d.paras| && |d.paras[n]| >= 40 && LeavesAt(d, n) == [leaf] && |leaf| >= 12
    requires Candidates(alnum, leaf) == [cand] && |Picks(d, alnum, n)| < 3 && Suitable(d, Picks(d, alnum, n), cand)
    ensures Picks(d, alnum, n + 1) == Picks(d, alnum, n) + [Pick(cand, n)]
  {
    hide Candidates, Suitable;
    var picked := Picks(d, alnum, n);
    assert FirstSuitable(d, picked, [cand]) == Some(cand);
    assert FromLeaves(d, alnum, picked, [leaf]) == Some(cand);
  }

  /** The letters of the three leaves. */
  function Letter(k: nat): char {
    if k == 0 then 'a' else if k == 1 then 'b' else 'c'
  }

  /** The three passages at the first three indices. */
  function FirstThree(): seq<Pick> {
    [Pick(Leaf('a'), 0), Pick(Leaf('b'), 1), Pick(Leaf('c'), 2)]
  }

  /** The raw member has each passage once; letters are alphanumeric. */
  predicate Plain(raw: seq<byte>, alnum: char -> bool) {
    forall k :: 0 <= k < 3 ==> alnum(Letter(k)) && Utf8(Leaf(Letter(k))) != [] && Count(raw, Utf8(Leaf(Letter(k))), 0) == 1
  }

  ghost predicate ThreeReady(d: Doc, alnum: char -> bool) {
    && |d.paras| == 4 && |d.leaves| >= 3 && Plain(d.raw, alnum)
    && forall k :: 0 <= k < 3 ==>
         (&& |d.paras[k]| >= 40 && InOne(d.paras, Leaf(Letter(k)))
          && (d.leaves[k] == [Leaf(Letter(k))] || d.leaves[k] == [Spaced(Letter(k))]))
  }

  lemma {:induction false} PicksUpTo(d: Doc, alnum: char -> bool, n: nat)
    requires ThreeReady(d, alnum) && n <= 3
    ensures Picks(d, alnum, n) == FirstThree()[..n]
  {
    hide Candidates, Suitable, Utf8, Count, InOne, Leaf, Spaced, Clear, Picks;
    if n == 0 {
      assert Picks(d, alnum, 0) == [] by { StartsEmpty(d, alnum); }
    } else {
      PicksUpTo(d, alnum, n - 1);
      var x := Letter(n - 1);
      LeafShape(x);
      SameCandidates(alnum, x);
      var picked := Picks(d, alnum, n - 1);
      ClearBefore(n - 1);
      SuitsHere(d, picked, Leaf(x));
      PickedHere(d, alnum, n - 1, d.leaves[n - 1][0], Leaf(x));
      assert FirstThree()[..n] == FirstThree()[..n - 1] + [FirstThree()[n - 1]];
    }
  }

  lemma {:induction false} StartsEmpty(d: Doc, alnum: char -> bool)
    ensures Picks(d, alnum, 0) == []
  {}

  lemma {:induction false} LeafShape(x: char)
    requires 'a' <= x <= 'c'
    ensures |Leaf(x)| >= 12 && |Spaced(x)| >= 12 && NEWLINE !in Leaf(x) && Leaf(x) != []
  {}

  lemma {:induction false} ClearBefore(n: nat)
    requires n < 3
    ensures Clear(FirstThree()[..n], Leaf(Letter(n)))
  {
    hide Within;
    forall k | 0 <= k < n
      ensures !Within(Leaf(Letter(n)), Leaf(Letter(k))) && !Within(Leaf(Letter(k)), Leaf(Letter(n)))
    {
      NoneInOther(Leaf(Letter(k)), Letter(n));
      NoneInOther(Leaf(Letter(n)), Letter(k));
    }
    assert forall k :: 0 <= k < n ==> FirstThree()[..n][k].passage == Leaf(Letter(k));
  }

  lemma {:induction false} AllPicks(d: Doc, alnum: char -> bool)
    requires ThreeReady(d, alnum)
    ensures Picks(d, alnum, |d.paras|) == FirstThree()
  {
    hide ThreeReady;
    PicksUpTo(d, alnum, 3);
    assert |d.paras| == 4 by { FourParas(d, alnum); }
    PicksEnd(d, alnum, 3, 4);
  }

  lemma {:induction false} FourParas(d: Doc, alnum: char -> bool)
    requires ThreeReady(d, alnum)
    ensures |d.paras| == 4
  {
    hide InOne, Plain;
  }

  /** A paragraph of a table, and three children of the body after it, each with its own leaf. */
  function Tabled(raw: seq<byte>): Doc {
    Doc([Filler(), Leaf('a') + Filler(), Leaf('b') + Filler(), Leaf('c') + Filler()], raw, [[Leaf('a')], [Leaf('b')], [Leaf('c')]])
  }

  lemma {:induction false} TabledHomes(raw: seq<byte>, k: nat)
    requires k < 3
    ensures OnlyIn(Tabled(raw).paras, Leaf(Letter(k)), k + 1)
  {
    hide Count, Within;
    var x, paras := Letter(k), Tabled(raw).paras;
    OnceInOwn(x);
    forall j | 0 <= j < 4 ensures Count(paras[j], Leaf(x), 0) == if j == k + 1 then 1 else 0 {
      if j != k + 1 {
        NoneInOther(paras[j], x);
      }
    }
  }

  /** A table's paragraph comes first: three passages are reported, each at the index of the paragraph before its own. */
  lemma {:induction false} TableShiftsIndex(raw: seq<byte>, alnum: char -> bool)
    requires Plain(raw, alnum)
    ensures var d := Tabled(raw); var picks := Picks(d, alnum, |d.paras|);
            && Laid(d, [1, 2, 3]) && |picks| == 3
            && forall k :: 0 <= k < 3 ==> picks[k].index == k && OnlyIn(d.paras, picks[k].passage, k + 1)
  {
    hide Candidates, Suitable, OnlyIn, Utf8, Count, Picks, Within, Plain;
    var d := Tabled(raw);
    forall k | 0 <= k < 3 ensures InOne(d.paras, Leaf(Letter(k))) && OnlyIn(d.paras, Leaf(Letter(k)), k + 1) {
      TabledHomes(raw, k);
    }
    AllPicks(d, alnum);
    assert forall k :: 0 <= k < 3 ==> FirstThree()[k] == Pick(Leaf(Letter(k)), k);
    OnceInOwn('a');
    OnceInOwn('b');
    OnceInOwn('c');
  }

  /** No table; the first paragraph's leaf has two spaces in a row, and the last paragraph has its words with one. */
  function Respaced(raw: seq<byte>): Doc {
    Doc([Spaced('a') + Filler(), Leaf('b') + Filler(), Leaf('c') + Filler(), Leaf('a') + Filler()], raw,
        [[Spaced('a')], [Leaf('b')], [Leaf('c')], [Leaf('a')]])
  }

  lemma {:induction false} RespacedHomes(raw: seq<byte>, k: nat)
    requires k < 3
    ensures OnlyIn(Respaced(raw).paras, Leaf(Letter(k)), if k == 0 then 3 else k)
  {
    hide Count, Within;
    var x, paras, home := Letter(k), Respaced(raw).paras, if k == 0 then 3 else k;
    OnceInOwn(x);
    NoneInSpaced('a');
    forall j | 0 <= j < 4 ensures Count(paras[j], Leaf(x), 0) == if j == home then 1 else 0 {
      if j != home && (k != 0 || j != 0) {
        NoneInOther(paras[j], x);
      }
    }
  }

  /**
   No table at all, but a leaf with two spaces in a row: its words joined by one space are not in that leaf, and are
   reported at its index because another paragraph has them.
   */
  lemma {:induction false} SpacedLeafPicksElsewhere(raw: seq<byte>, alnum: char -> bool)
    requires Plain(raw, alnum)
    ensures var d := Respaced(raw); var picks := Picks(d, alnum, |d.paras|);
            && Laid(d, [0, 1, 2, 3]) && InStep([0, 1, 2, 3], 4) && |picks| == 3
            && picks[0].index == 0 && OnlyIn(d.paras, picks[0].passage, 3)
  {
    hide Candidates, Suitable, OnlyIn, Utf8, Count, Picks, Within, Plain;
    var d := Respaced(raw);
    forall k | 0 <= k < 3 ensures InOne(d.paras, Leaf(Letter(k))) {
      RespacedHomes(raw, k);
      assert OnlyIn(d.paras, Leaf(Letter(k)), if k == 0 then 3 else k);
    }
    RespacedHomes(raw, 0);
    AllPicks(d, alnum);
    SpacedWithin('a');
    OnceInOwn('a');
    OnceInOwn('b');
    OnceInOwn('c');
  }

  lemma {:induction false} SpacedWithin(x: char)
    ensures Within(Spaced(x), Spaced(x) + Filler())
  {
    assert At(Spaced(x) + Filler(), Spaced(x), 0);
  }

  // ----- mutating a passage -----

  /** The position that is changed: the first alphanumeric one from the middle on, or else the middle. */
  predicate IsMiddle(alnum: char -> bool, text: string, pos: nat) {
    pos < |text|
    && if exists i :: |text| / 2 <= i < |text| && alnum(text[i]) then
         |text| / 2 <= pos && alnum(text[pos]) && forall i :: |text| / 2 <= i < pos ==> !alnum(text[i])
       else pos == |text| / 2
  }

  /** `_mutate_middle`; the source indexes an empty text out of range. */
  method MutateMiddle(alnum: char -> bool, text: string) returns (r: string)
    requires text != []
    ensures |r| == |text|
    ensures exists pos: nat :: IsMiddle(alnum, text, pos) && r == text[pos := r[pos]] && r[pos] != text[pos]
                               && r[pos] == if text[pos] != 'X' then 'X' else 'Y'
  {
    var pos := |text| / 2;
    while pos < |text| && !alnum(text[pos])
      invariant |text| / 2 <= pos <= |text| && forall i :: |text| / 2 <= i < pos ==> !alnum(text[i])
    {
      pos := pos + 1;
    }
    if pos >= |text| {
      pos := |text| / 2;
    }
    assert IsMiddle(alnum, text, pos);
    r := text[..pos] + [if text[pos] != 'X' then 'X' else 'Y'] + text[pos + 1..];
    assert r == text[pos := r[pos]];
  }
}
