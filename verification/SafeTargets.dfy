/** `find_safe_targets`: several targets from one document, each search excluding the queries already taken. */
module SafeTargets {
  import opened Sequences
  import opened Scanner
  import opened Markup
  import opened ScanStability
  import opened Locator
  import opened LocatorResults
  import opened TextRanges
  import opened TextPairing
  import opened Queries
  import opened Spelling
  import opened Target
  import opened TargetFacts
  import opened Uniqueness
  import opened PredictedEdit

  datatype Ending = Ok | NoTargetLeft(why: Refusal) | RepeatedQuery

  function QueriesOf(ts: seq<EditTarget>): seq<string> {
    seq(|ts|, i requires 0 <= i < |ts| => ts[i].query)
  }

  /** Target k is what the single-target oracle selects with the earlier queries among the other texts. */
  ghost predicate Chosen(lib: Library, doc: seq<byte>, others: seq<string>, ts: seq<EditTarget>) {
    forall k :: 0 <= k < |ts| ==> IsSelection(lib, doc, others + QueriesOf(ts[..k]), Selected(ts[k]))
  }

  lemma {:induction false} ChosenExtend(lib: Library, doc: seq<byte>, others: seq<string>, ts: seq<EditTarget>, t: EditTarget)
    requires Chosen(lib, doc, others, ts) && IsSelection(lib, doc, others + QueriesOf(ts), Selected(t))
    ensures Chosen(lib, doc, others, ts + [t])
  {
    hide IsSelection;
    var all := ts + [t];
    forall k | 0 <= k < |all| ensures IsSelection(lib, doc, others + QueriesOf(all[..k]), Selected(all[k])) {
      if k == |ts| {
        assert all[..k] == ts;
      } else {
        assert all[..k] == ts[..k];
      }
    }
  }

  /** A text is always found in itself. */
  lemma {:induction false} FindSelf<T>(s: seq<T>)
    ensures Find(s, s, 0) == 0
  {
    assert At(s, s, 0);
  }

  /** What is chosen is determined: two runs of equal length agree. */
  lemma {:induction false} ChosenOnce(lib: Library, doc: seq<byte>, others: seq<string>, ts: seq<EditTarget>, us: seq<EditTarget>)
    requires Chosen(lib, doc, others, ts) && Chosen(lib, doc, others, us) && |ts| <= |us|
    ensures ts == us[..|ts|]
    decreases |ts|
  {
    hide IsSelection;
    if |ts| > 0 {
      var n := |ts| - 1;
      assert ts[..n][..n] == ts[..n];
      forall k | 0 <= k < n ensures ts[..n][..k] == ts[..k] {}
      ChosenOnce(lib, doc, others, ts[..n], us);
      OneSelection(lib, doc, others + QueriesOf(ts[..n]), Selected(ts[n]), Selected(us[n]));
      assert ts == ts[..n] + [ts[n]] && us[..n + 1] == us[..n] + [us[n]];
    }
  }

  /** No selected query, folded, stands inside a folded text of the exclusion list. */
  lemma {:induction false} NotInOthers(lib: Library, doc: seq<byte>, others: seq<string>, t: EditTarget, i: nat)
    requires IsSelection(lib, doc, others, Selected(t)) && i < |others|
    ensures Find(lib.fold(others[i]), lib.fold(t.query), 0) < 0
  {
    hide Scan, Locate, RangesOf, Paragraphs, AllCands, FirstSafe, Directs, Utf8, OwnKids, ReplacementFor, Texts, Safe,
         InSome, PySlice;
    var root := lib.parse(doc).value;
    var ranges := RangesOf(doc, lib.calls(doc).0, lib.calls(doc).1, TextCount(root)).value;
    var v := ViewOf(lib, doc, others, root, ranges);
    var cands := AllCands(lib, 0, Paragraphs(root));
    FirstSafeSafe(v, cands);
    SafeAvoids(v, FirstSafe(v, cands).value, i);
  }

  lemma {:induction false} SafeAvoids(v: View, c: Cand, i: nat)
    requires Safe(v, c) && i < |v.others|
    ensures Find(v.lib.fold(v.others[i]), v.lib.fold(c.query), 0) < 0
  {
    hide FoldedCount, PyCount, PySlice, Utf8;
  }

  /** `find_safe_targets` */
  method FindSafeTargets(lib: Library, docxml: seq<byte>, others: seq<string>, need: nat)
    returns (out: seq<EditTarget>, ending: Ending)
    ensures Chosen(lib, docxml, others, out)
    ensures ending.Ok? <==> |out| == need
    ensures |out| <= need && ending != RepeatedQuery
    ensures ending.NoTargetLeft? ==> IsSelection(lib, docxml, others + QueriesOf(out), Refused(ending.why))
  {
    hide IsSelection;
    out := [];
    var seen: set<string> := {};
    var excluded := others;
    for n := 0 to need
      invariant |out| == n && Chosen(lib, docxml, others, out)
      invariant excluded == others + QueriesOf(out)
      invariant forall q :: q in seen ==> q in QueriesOf(out)
    {
      var s := SelectTarget(lib, docxml, excluded);
      if s.Refused? {
        return out, NoTargetLeft(s.why);
      }
      var t := s.target;
      NewQuery(lib, docxml, others, out, t);
      if t.query in seen {
        return out, RepeatedQuery;
      }
      ChosenExtend(lib, docxml, others, out, t);
      assert QueriesOf(out + [t]) == QueriesOf(out) + [t.query];
      out := out + [t];
      seen := seen + {t.query};
      assert excluded + [t.query] == others + QueriesOf(out);
      excluded := excluded + [t.query];
    }
    ending := Ok;
  }

  lemma {:induction false} NewQuery(lib: Library, doc: seq<byte>, others: seq<string>, ts: seq<EditTarget>, t: EditTarget)
    requires IsSelection(lib, doc, others + QueriesOf(ts), Selected(t))
    ensures t.query !in QueriesOf(ts)
  {
    hide IsSelection;
    var all := others + QueriesOf(ts);
    forall i | 0 <= i < |ts| ensures QueriesOf(ts)[i] != t.query {
      assert all[|others| + i] == QueriesOf(ts)[i];
      NotInOthers(lib, doc, all, t, |others| + i);
      FindSelf(lib.fold(t.query));
    }
  }

  // ----- what the queries are to each other -----

  /** Folding characters one by one, as case folding does. */
  ghost predicate Charwise(fold: string -> string) {
    forall a, b :: fold(a + b) == fold(a) + fold(b)
  }

  lemma {:induction false} FoldedInside(fold: string -> string, s: string, q: string, i: int)
    requires Charwise(fold) && At(s, q, i)
    ensures Find(fold(s), fold(q), 0) >= 0
  {
    var a, c := s[..i], s[i + |q|..];
    assert s == (a + q) + c;
    assert fold(s) == fold(a) + fold(q) + fold(c);
    AtConcat(fold(s), fold(a) + fold(q), fold(c), 0);
    AtConcat(fold(s), fold(a), fold(q), 0);
    assert At(fold(s), fold(s), 0);
    assert At(fold(s), fold(q), |fold(a)|);
  }

  /**
   With character-wise folding the one text that has the folded query is the target's own `w:t`: the range recorded for
   that text is the target's.
   */
  lemma {:induction false} SelectedAtHome(lib: Library, doc: seq<byte>, others: seq<string>, t: EditTarget)
    returns (v: View, i: nat)
    requires Charwise(lib.fold) && IsSelection(lib, doc, others, Selected(t))
    ensures Views(lib, doc, others, v) && OneText(lib, v.texts, lib.fold(t.query), i)
    ensures i < |v.ranges| && v.ranges[i] == Range(t.wtStart, t.wtEnd)
  {
    hide IsSelection, Charwise, Views, Paragraphs, AllCands, OwnKids, RunTexts, ParagraphFlags, CandidateQueries, Once, Never,
         Tiles, IsQuery, OnceBetween;
    var k: nat;
    v, k := SelectedIsUnique(lib, doc, others, Selected(t));
    ViewTexts(lib, doc, others, v, 0);
    var root := lib.parse(doc).value;
    var paras := Paragraphs(root);
    var c := AllCands(lib, 0, paras)[k];
    i := c.index;
    var r := AllCandsIn(lib, 0, paras, c);
    ParagraphsIndexed(root);
    assert paras[c.ordinal] in paras;
    ViewTexts(lib, doc, others, v, i);
    var text := lib.text(r.kids);
    CandidatesAreTiles(text);
    var j :| 0 <= j < |CandidateQueries(text)| && CandidateQueries(text)[j] == c.query;
    FoldedThere(lib.fold, text, c.query, Tiles(text, 0)[j].start);
    var home: nat :| OneText(lib, v.texts, lib.fold(c.query), home);
  }

  lemma {:induction false} ViewTexts(lib: Library, doc: seq<byte>, others: seq<string>, v: View, i: nat)
    requires Views(lib, doc, others, v)
    ensures lib.parse(doc).Some? && v.lib == lib
    ensures i < |OwnKids(lib.parse(doc).value)| ==> i < |v.texts| && v.texts[i] == lib.text(OwnKids(lib.parse(doc).value)[i])
  {
    hide RangesOf, OwnKids, Paragraphs, TextOfPara;
  }

  lemma {:induction false} FoldedThere(fold: string -> string, s: string, q: string, i: nat)
    requires Charwise(fold) && i + |q| <= |s| && s[i..i + |q|] == q
    ensures !Never(fold(s), fold(q))
  {
    FoldedInside(fold, s, q, i);
    var r := Find(fold(s), fold(q), 0);
    assert At(fold(s), fold(q), r);
  }

  /**
   The queries are pairwise distinct, no later query folded stands inside an earlier one folded, and with
   character-wise folding no later query is a substring of an earlier one.
   */
  lemma {:induction false} QueriesApart(lib: Library, doc: seq<byte>, others: seq<string>, ts: seq<EditTarget>, j: nat, k: nat)
    requires Chosen(lib, doc, others, ts) && j < k < |ts|
    ensures ts[j].query != ts[k].query
    ensures Find(lib.fold(ts[j].query), lib.fold(ts[k].query), 0) < 0
    ensures Charwise(lib.fold) ==> forall i :: !At(ts[j].query, ts[k].query, i)
  {
    hide IsSelection, Charwise;
    var all := others + QueriesOf(ts[..k]);
    assert all[|others| + j] == ts[j].query;
    NotInOthers(lib, doc, all, ts[k], |others| + j);
    FindSelf(lib.fold(ts[j].query));
    if Charwise(lib.fold) {
      forall i ensures !At(ts[j].query, ts[k].query, i) {
        if At(ts[j].query, ts[k].query, i) {
          FoldedInside(lib.fold, ts[j].query, ts[k].query, i);
        }
      }
    }
  }

  // ----- disjoint places -----

  /** The tiles are written out in the i-th `w:t`, whatever else it holds: references, comments, CDATA sections, several texts. */
  ghost predicate LegibleAt(lib: Library, f: Forest, i: nat) {
    i < TextCount(f) && TilesWrittenOut(lib.text(OwnKids(f)[i]), Print(OwnKids(f)[i]))
  }

  /** The i-th `w:t` is the one the target stands in. */
  ghost predicate HoldsTarget(f: Forest, i: nat, t: EditTarget) {
    i < TextCount(f) && i < |Own(f, 0)| && Own(f, 0)[i] == Range(t.wtStart, t.wtEnd)
  }

  /** The tile a selected query comes from, and the `w:t` it stands in. */
  lemma {:induction false} SourceOf(lib: Library, f: Forest, others: seq<string>, t: EditTarget) returns (i: nat, tile: Tile)
    requires WellFormed(f) && Pairable(f) && Truthful(lib, f) && IsSelection(lib, Print(f), others, Selected(t))
    ensures i < TextCount(f) && i < |Own(f, 0)| && Own(f, 0)[i] == Range(t.wtStart, t.wtEnd)
    ensures var text := lib.text(OwnKids(f)[i]);
            tile in Tiles(text, 0) && tile.start <= tile.end <= |text| && t.query == text[tile.start..tile.end]
  {
    hide Scan, Locate, Directs, AllCands, FirstSafe, OwnKids, Own, Print, Pairable, Safe, RunTexts, Handle, Paragraphs, Utf8,
         WellFormed, CandidateQueries, ParagraphFlags, Tiles, IsQuery;
    OwnCount(f, 0);
    PairingExact(f);
    var paras := Paragraphs(f);
    var v := ViewOf(lib, Print(f), others, f, Own(f, 0));
    var cands := AllCands(lib, 0, paras);
    FirstSafeIn(v, cands);
    var c := FirstSafe(v, cands).value;
    var r := AllCandsIn(lib, 0, paras, c);
    ParagraphsIndexed(f);
    assert paras[c.ordinal] in paras;
    i := c.index;
    var text := lib.text(r.kids);
    CandidatesAreTiles(text);
    var k :| 0 <= k < |CandidateQueries(text)| && CandidateQueries(text)[k] == c.query;
    tile := Tiles(text, 0)[k];
  }

  /** Without self-overlap, the place of the query is where its tile is written out. */
  lemma {:induction false} PlaceOfTile(f: Forest, t: EditTarget, i: nat, text: string, pos: seq<nat>, tile: Tile)
    requires GoodTarget(Print(f), t) && NoSelfOverlap(Utf8(t.query)) && HoldsTarget(f, i, t)
    requires Offsets(text, Print(OwnKids(f)[i]), pos) && WrittenOut(text, Print(OwnKids(f)[i]), pos, tile)
    requires t.query == text[tile.start..tile.end]
    ensures t.queryStart == t.wtStart + pos[tile.start] && t.queryEnd == t.wtStart + pos[tile.end]
  {
    hide Own, OwnKids, Print, Utf8, At, Holds, IsQuery, ReplacementOr, Replaces, Find;
    var doc, qb, bs := Print(f), Utf8(t.query), Print(OwnKids(f)[i]);
    Whole(doc);
    OwnHolds(doc, f, 0);
    HoldsAt(doc, Own(f, 0), OwnKids(f), i);
    var a, b := pos[tile.start], pos[tile.end];
    assert bs == (bs[..a] + bs[a..b]) + bs[b..];
    AtConcat(doc, bs[..a] + qb, bs[b..], t.wtStart);
    AtConcat(doc, bs[..a], qb, t.wtStart);
    GoodTargetUnique(doc, t, t.wtStart + a);
  }

  ghost predicate ApartPlaces(s: EditTarget, t: EditTarget) {
    s.queryEnd <= t.queryStart || t.queryEnd <= s.queryStart
  }

  /**
   Two targets of one run, in a document the libraries report as it is, with queries that do not overlap a shifted copy
   of themselves: their byte ranges are disjoint, provided that the tiles of the `w:t` the first one stands in are
   written out there. Nothing is asked of any other `w:t`.
   */
  lemma {:induction false} PlacesApart(lib: Library, f: Forest, others: seq<string>, ts: seq<EditTarget>, j: nat, k: nat)
    requires WellFormed(f) && Pairable(f) && Truthful(lib, f) && Chosen(lib, Print(f), others, ts)
    requires j < k < |ts| && NoSelfOverlap(Utf8(ts[j].query)) && NoSelfOverlap(Utf8(ts[k].query))
    requires forall i :: HoldsTarget(f, i, ts[j]) ==> LegibleAt(lib, f, i)
    ensures ApartPlaces(ts[j], ts[k])
  {
    hide IsSelection, Own, OwnKids, Print, Pairable, WellFormed, Utf8, Tiles, IsQuery, NoSelfOverlap, Truthful;
    var s, t, doc := ts[j], ts[k], Print(f);
    SelectionIsGood(lib, doc, others + QueriesOf(ts[..j]), Selected(s));
    SelectionIsGood(lib, doc, others + QueriesOf(ts[..k]), Selected(t));
    var si, sTile := SourceOf(lib, f, others + QueriesOf(ts[..j]), s);
    var ti, tTile := SourceOf(lib, f, others + QueriesOf(ts[..k]), t);
    if si != ti {
      RangesApart(f, s, t, si, ti);
    } else {
      assert HoldsTarget(f, si, s) && HoldsTarget(f, ti, t);
      var text, bs := lib.text(OwnKids(f)[si]), Print(OwnKids(f)[si]);
      assert LegibleAt(lib, f, si);
      var pos :| Offsets(text, bs, pos) && forall tile :: tile in Tiles(text, 0) ==> WrittenOut(text, bs, pos, tile);
      QueriesApart(lib, doc, others, ts, j, k);
      PlaceOfTile(f, s, si, text, pos, sTile);
      PlaceOfTile(f, t, ti, text, pos, tTile);
      TilesApart(text, sTile, tTile);
    }
  }

  lemma {:induction false} RangesApart(f: Forest, s: EditTarget, t: EditTarget, i: nat, k: nat)
    requires Pairable(f) && GoodTarget(Print(f), s) && GoodTarget(Print(f), t)
    requires i < |Own(f, 0)| && k < |Own(f, 0)| && i != k
    requires Own(f, 0)[i] == Range(s.wtStart, s.wtEnd) && Own(f, 0)[k] == Range(t.wtStart, t.wtEnd)
    ensures ApartPlaces(s, t)
  {
    hide Own, Print, Pairable, Utf8;
    OwnApart(f, 0);
  }

  // ----- edits in any order -----

  datatype Edit = Edit(start: nat, bytes: seq<byte>)

  ghost predicate Fits(n: nat, edits: seq<Edit>) {
    && (forall i :: 0 <= i < |edits| ==> edits[i].start + |edits[i].bytes| <= n)
    && (forall i, j :: 0 <= i < j < |edits| ==>
          (edits[i].start + |edits[i].bytes| <= edits[j].start || edits[j].start + |edits[j].bytes| <= edits[i].start))
  }

  function Apply(doc: seq<byte>, edits: seq<Edit>): (out: seq<byte>)
    requires forall i :: 0 <= i < |edits| ==> edits[i].start + |edits[i].bytes| <= |doc|
    ensures |out| == |doc|
    decreases |edits|
  {
    if edits == [] then doc else Apply(Splice(doc, edits[0].start, edits[0].bytes), edits[1..])
  }

  predicate Covers(e: Edit, i: nat) {
    e.start <= i < e.start + |e.bytes|
  }

  /** Every byte of the result comes from the one edit that covers it, or from the document. */
  lemma {:induction false} ApplyAt(doc: seq<byte>, edits: seq<Edit>, i: nat)
    requires Fits(|doc|, edits) && i < |doc|
    ensures forall e :: e in edits && Covers(e, i) ==> Apply(doc, edits)[i] == e.bytes[i - e.start]
    ensures (forall e :: e in edits ==> !Covers(e, i)) ==> Apply(doc, edits)[i] == doc[i]
    decreases |edits|
  {
    if edits != [] {
      var rest := edits[1..];
      assert Fits(|doc|, rest);
      ApplyAt(Splice(doc, edits[0].start, edits[0].bytes), rest, i);
      if Covers(edits[0], i) {
        forall e | e in rest ensures !Covers(e, i) {
          var k :| 0 <= k < |rest| && rest[k] == e;
          assert edits[k + 1] == e;
        }
      }
    }
  }

  /** Disjoint edits give the same bytes in whatever order they are made. */
  lemma {:induction false} OrderIrrelevant(doc: seq<byte>, a: seq<Edit>, b: seq<Edit>)
    requires Fits(|doc|, a) && Fits(|doc|, b) && (forall e :: e in a <==> e in b)
    ensures Apply(doc, a) == Apply(doc, b)
  {
    forall i | 0 <= i < |doc| ensures Apply(doc, a)[i] == Apply(doc, b)[i] {
      ApplyAt(doc, a, i);
      ApplyAt(doc, b, i);
      if e :| e in a && Covers(e, i) {
        assert e in b;
      }
    }
  }

  function EditsOf(ts: seq<EditTarget>): seq<Edit> {
    seq(|ts|, i requires 0 <= i < |ts| => Edit(ts[i].queryStart, Utf8(ts[i].replacement)))
  }

  /** So the targets of one run may be edited in any order, when the `w:t` elements they stand in are legible. */
  lemma {:induction false} TargetsCommute(lib: Library, f: Forest, others: seq<string>, ts: seq<EditTarget>, order: seq<Edit>)
    requires WellFormed(f) && Pairable(f) && Truthful(lib, f) && Chosen(lib, Print(f), others, ts)
    requires forall k, i :: 0 <= k < |ts| && HoldsTarget(f, i, ts[k]) ==> LegibleAt(lib, f, i)
    requires forall k :: 0 <= k < |ts| ==> NoSelfOverlap(Utf8(ts[k].query))
    requires multiset(order) == multiset(EditsOf(ts))
    ensures Fits(|Print(f)|, EditsOf(ts)) && Fits(|Print(f)|, order)
    ensures Apply(Print(f), order) == Apply(Print(f), EditsOf(ts))
  {
    hide IsSelection, Pairable, WellFormed, Utf8, Truthful, NoSelfOverlap, Print, LegibleAt, HoldsTarget, Apply, ApartPlaces,
         Fits, EditsOf;
    forall i, j | 0 <= i < j < |ts| ensures ApartPlaces(ts[i], ts[j]) {
      PlacesApart(lib, f, others, ts, i, j);
    }
    FitsIfApart(lib, f, others, ts);
    AnyOrder(lib, f, others, ts, order);
  }

  /** The edits are disjoint exactly when the targets' places are. */
  lemma {:induction false} FitsIfApart(lib: Library, f: Forest, others: seq<string>, ts: seq<EditTarget>)
    requires Chosen(lib, Print(f), others, ts)
    ensures Fits(|Print(f)|, EditsOf(ts)) <==> forall i, j :: 0 <= i < j < |ts| ==> ApartPlaces(ts[i], ts[j])
  {
    hide IsSelection, Utf8, Print;
    var edits, doc := EditsOf(ts), Print(f);
    forall k | 0 <= k < |ts| ensures edits[k].start == ts[k].queryStart && edits[k].start + |edits[k].bytes| == ts[k].queryEnd <= |doc| {
      SelectionIsGood(lib, doc, others + QueriesOf(ts[..k]), Selected(ts[k]));
      ReplacesLength(Utf8(ts[k].query), Utf8(ts[k].replacement));
    }
    forall i, j | 0 <= i < j < |ts|
      ensures ApartPlaces(ts[i], ts[j]) <==>
              (edits[i].start + |edits[i].bytes| <= edits[j].start || edits[j].start + |edits[j].bytes| <= edits[i].start)
    {}
  }

  /** Disjoint edits of a run may be made in any order. */
  lemma {:induction false} AnyOrder(lib: Library, f: Forest, others: seq<string>, ts: seq<EditTarget>, order: seq<Edit>)
    requires Chosen(lib, Print(f), others, ts) && Fits(|Print(f)|, EditsOf(ts)) && multiset(order) == multiset(EditsOf(ts))
    ensures Fits(|Print(f)|, order) && Apply(Print(f), order) == Apply(Print(f), EditsOf(ts))
  {
    hide IsSelection, Print, Apply, EditsOf;
    NonEmpty(lib, f, others, ts);
    assert |EditsOf(ts)| == |ts| by { EditsCount(ts); }
    PermutationFits(|Print(f)|, EditsOf(ts), order);
    OrderIrrelevant(Print(f), order, EditsOf(ts));
  }

  lemma {:induction false} EditsCount(ts: seq<EditTarget>)
    ensures |EditsOf(ts)| == |ts|
  {}

  lemma {:induction false} NonEmpty(lib: Library, f: Forest, others: seq<string>, ts: seq<EditTarget>)
    requires Chosen(lib, Print(f), others, ts)
    ensures forall i :: 0 <= i < |ts| ==> |EditsOf(ts)[i].bytes| > 0
  {
    hide IsSelection, Print, Utf8;
    forall i | 0 <= i < |ts| ensures |EditsOf(ts)[i].bytes| > 0 {
      SelectionIsGood(lib, Print(f), others + QueriesOf(ts[..i]), Selected(ts[i]));
      NoAngle(ts[i].query);
      ReplacesLength(Utf8(ts[i].query), Utf8(ts[i].replacement));
    }
  }

  /** A permutation of disjoint non-empty edits is disjoint again. */
  lemma {:induction false} PermutationFits(n: nat, a: seq<Edit>, b: seq<Edit>)
    requires Fits(n, a) && multiset(a) == multiset(b) && forall i :: 0 <= i < |a| ==> |a[i].bytes| > 0
    ensures Fits(n, b) && forall e :: e in b <==> e in a
  {
    forall e ensures e in b <==> e in a {
      assert e in b <==> e in multiset(b);
      assert e in a <==> e in multiset(a);
    }
    forall i | 0 <= i < |b| ensures b[i].start + |b[i].bytes| <= n {
      assert b[i] in a;
    }
    forall i, j | 0 <= i < j < |b|
      ensures b[i].start + |b[i].bytes| <= b[j].start || b[j].start + |b[j].bytes| <= b[i].start
    {
      assert b[i] in a && b[j] in a;
      var x :| 0 <= x < |a| && a[x] == b[i];
      var y :| 0 <= y < |a| && a[y] == b[j];
      if x == y {
        Twice(b, i, j);
        ListedOnce(n, a, x);
      }
    }
  }

  lemma {:induction false} Twice<T>(b: seq<T>, i: nat, j: nat)
    requires i < j < |b| && b[i] == b[j]
    ensures multiset(b)[b[i]] >= 2
  {
    assert b == b[..j] + b[j..];
    assert b[i] in multiset(b[..j]) by { assert b[..j][i] == b[i]; }
    assert b[j] in multiset(b[j..]) by { assert b[j..][0] == b[j]; }
  }

  lemma {:induction false} ListedOnce(n: nat, a: seq<Edit>, x: nat)
    requires Fits(n, a) && x < |a| && |a[x].bytes| > 0
    ensures multiset(a)[a[x]] == 1
  {
    assert a == a[..x] + [a[x]] + a[x + 1..];
    assert a[x] !in a[..x] && a[x] !in a[x + 1..];
    assert a[x] !in multiset(a[..x]) && a[x] !in multiset(a[x + 1..]);
  }
}
