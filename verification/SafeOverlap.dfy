/** Exactly when two targets of one run overlap in the bytes. */
module SafeOverlap {
  import opened Sequences
  import opened ScanStability
  import opened Markup
  import opened TextRanges
  import opened TextPairing
  import opened Queries
  import opened Spelling
  import opened Target
  import opened TargetFacts
  import opened PredictedEdit
  import opened TileOverlap
  import opened SafeTargets

  /** The tiles of the i-th `w:t` are spelled out in it. */
  ghost predicate SpelledAt(lib: Library, f: Forest, i: nat) {
    i < TextCount(f) && TilesSpelled(lib.text(OwnKids(f)[i]), Print(OwnKids(f)[i]))
  }

  /** Two tiles of the text with the given characters, the second one reaching into the first. */
  ghost predicate Meet(text: string, p: string, q: string, a: Tile, b: Tile) {
    && a in Tiles(text, 0) && b in Tiles(text, 0)
    && a.start < a.end <= |text| && b.start < b.end <= |text|
    && text[a.start..a.end] == p && text[b.start..b.end] == q
    && Reaches(text, a, b)
  }

  /** The two targets stand in one `w:t`, t's tile directly after s's, and t's query repeats further before its tile. */
  ghost predicate ReachesInto(lib: Library, f: Forest, s: EditTarget, t: EditTarget) {
    exists i: nat, a, b :: HoldsTarget(f, i, s) && HoldsTarget(f, i, t) && Meet(lib.text(OwnKids(f)[i]), s.query, t.query, a, b)
  }

  /** A target's place, seen from its `w:t`. */
  lemma {:induction false} PlaceInside(f: Forest, t: EditTarget, i: nat)
    requires GoodTarget(Print(f), t) && HoldsTarget(f, i, t)
    ensures t.wtStart <= t.queryStart && OnlyAt(Print(OwnKids(f)[i]), Utf8(t.query), t.queryStart - t.wtStart)
  {
    hide Own, OwnKids, Print, Utf8, IsQuery, Replaces, ReplacementOr;
    var doc, qb, x := Print(f), Utf8(t.query), t.queryStart - t.wtStart;
    Whole(doc);
    OwnHolds(doc, f, 0);
    HoldsAt(doc, Own(f, 0), OwnKids(f), i);
    var bs := Print(OwnKids(f)[i]);
    InsideOnly(doc, qb, t.wtStart, t.wtEnd, bs, t.queryStart);
  }

  lemma {:induction false} InsideOnly(doc: seq<byte>, q: seq<byte>, a: nat, b: nat, bs: seq<byte>, at: nat)
    requires a <= at && at + |q| <= b <= |doc| && bs == doc[a..b] && q != [] && OnlyAt(doc, q, at)
    ensures OnlyAt(bs, q, at - a)
  {
    forall j | At(bs, q, j) ensures at - a <= j < at - a + |q| {
      InnerOccurrence(doc, q, a, b, j);
    }
    InnerOccurrence(doc, q, a, b, at - a);
    FindIs(bs, q, 0, at - a);
  }

  lemma {:induction false} OneHolder(f: Forest, t: EditTarget, i: nat, k: nat)
    requires Pairable(f) && HoldsTarget(f, i, t) && HoldsTarget(f, k, t)
    ensures i == k
  {
    hide Own, Print, Pairable;
    OwnApart(f, 0);
  }

  lemma {:induction false} TileBounds(text: string, t: Tile)
    requires t in Tiles(text, 0)
    ensures t.start < t.end <= |text|
  {
    hide Tiles;
    TilesShape(text, 0);
  }

  /** Two good targets of one `w:t` with tiles in a given order. */
  lemma {:induction false} PairInOrder(lib: Library, f: Forest, s: EditTarget, t: EditTarget, i: nat, a: Tile, b: Tile)
    requires GoodTarget(Print(f), s) && GoodTarget(Print(f), t)
    requires HoldsTarget(f, i, s) && HoldsTarget(f, i, t) && SpelledAt(lib, f, i)
    requires var text := lib.text(OwnKids(f)[i]);
             && a in Tiles(text, 0) && b in Tiles(text, 0) && a.start < a.end <= b.start < b.end <= |text|
             && text[a.start..a.end] == s.query && text[b.start..b.end] == t.query
    ensures ApartPlaces(s, t) <==> !Reaches(lib.text(OwnKids(f)[i]), a, b)
  {
    hide Own, OwnKids, Print, Utf8, IsQuery, Replaces, ReplacementOr, Tiles, OnlyAt, Reaches, Spells;
    var text, bs := lib.text(OwnKids(f)[i]), Print(OwnKids(f)[i]);
    var pos: seq<nat> :| Spells(text, bs, pos);
    PlaceInside(f, s, i);
    PlaceInside(f, t, i);
    OverlapInText(text, bs, pos, a, b, s.queryStart - s.wtStart, t.queryStart - t.wtStart);
  }

  /** A pair of tiles that meet is a pair in order. */
  lemma {:induction false} MeetingOverlaps(lib: Library, f: Forest, s: EditTarget, t: EditTarget)
    requires GoodTarget(Print(f), s) && GoodTarget(Print(f), t) && ReachesInto(lib, f, s, t)
    requires forall i :: HoldsTarget(f, i, s) ==> SpelledAt(lib, f, i)
    ensures !ApartPlaces(s, t)
  {
    hide Own, OwnKids, Print, GoodTarget, Tiles, Shift, TilesSpelled;
    var i: nat, a, b :| HoldsTarget(f, i, s) && HoldsTarget(f, i, t)
                        && Meet(lib.text(OwnKids(f)[i]), s.query, t.query, a, b);
    PairInOrder(lib, f, s, t, i, a, b);
  }

  /**
   Exactly when two targets of one run overlap, whatever their queries are: they stand in one `w:t`, one tile directly
   after the other, and the later one's query repeats further before its own tile than the earlier one's does.
   */
  lemma {:induction false} OverlapExactly(lib: Library, f: Forest, others: seq<string>, ts: seq<EditTarget>, j: nat, k: nat)
    requires WellFormed(f) && Pairable(f) && Truthful(lib, f) && Chosen(lib, Print(f), others, ts)
    requires j < k < |ts| && forall i :: HoldsTarget(f, i, ts[j]) ==> SpelledAt(lib, f, i)
    ensures !ApartPlaces(ts[j], ts[k]) <==> ReachesInto(lib, f, ts[j], ts[k]) || ReachesInto(lib, f, ts[k], ts[j])
  {
    hide IsSelection, Own, OwnKids, Print, Pairable, WellFormed, Utf8, Tiles, IsQuery, Truthful, GoodTarget, Shift, SpelledAt,
         ReachesInto, Reaches;
    var s, t, doc := ts[j], ts[k], Print(f);
    SelectionIsGood(lib, doc, others + QueriesOf(ts[..j]), Selected(s));
    SelectionIsGood(lib, doc, others + QueriesOf(ts[..k]), Selected(t));
    var i, a := SourceOf(lib, f, others + QueriesOf(ts[..j]), s);
    var n, b := SourceOf(lib, f, others + QueriesOf(ts[..k]), t);
    QueriesApart(lib, doc, others, ts, j, k);
    if ReachesInto(lib, f, s, t) {
      MeetingOverlaps(lib, f, s, t);
    } else if ReachesInto(lib, f, t, s) {
      SpelledBoth(lib, f, s, t);
      MeetingOverlaps(lib, f, t, s);
    } else if i != n {
      RangesApart(f, s, t, i, n);
    } else {
      var text := lib.text(OwnKids(f)[i]);
      TileBounds(text, a);
      TileBounds(text, b);
      TilesApart(text, a, b);
      assert HoldsTarget(f, i, s) && HoldsTarget(f, i, t);
      if a.end <= b.start {
        if Reaches(text, a, b) {
          MeetingReaches(lib, f, s, t, i, a, b);
        }
        PairInOrder(lib, f, s, t, i, a, b);
      } else {
        if Reaches(text, b, a) {
          MeetingReaches(lib, f, t, s, i, b, a);
        }
        PairInOrder(lib, f, t, s, i, b, a);
      }
    }
  }

  lemma {:induction false} SpelledBoth(lib: Library, f: Forest, s: EditTarget, t: EditTarget)
    requires Pairable(f) && ReachesInto(lib, f, t, s)
    requires forall i :: HoldsTarget(f, i, s) ==> SpelledAt(lib, f, i)
    ensures forall i :: HoldsTarget(f, i, t) ==> SpelledAt(lib, f, i)
  {
    hide Own, OwnKids, Print, Pairable, Tiles, SpelledAt, Meet;
    var n: nat, a, b :| HoldsTarget(f, n, t) && HoldsTarget(f, n, s) && Meet(lib.text(OwnKids(f)[n]), t.query, s.query, a, b);
    forall i | HoldsTarget(f, i, t) ensures SpelledAt(lib, f, i) {
      OneHolder(f, t, i, n);
    }
  }

  lemma {:induction false} MeetingReaches(lib: Library, f: Forest, s: EditTarget, t: EditTarget, i: nat, a: Tile, b: Tile)
    requires HoldsTarget(f, i, s) && HoldsTarget(f, i, t)
    requires Meet(lib.text(OwnKids(f)[i]), s.query, t.query, a, b)
    ensures ReachesInto(lib, f, s, t)
  {}

  // ----- the edits of a run -----

  ghost predicate NoneReaches(lib: Library, f: Forest, ts: seq<EditTarget>) {
    forall j, k :: 0 <= j < |ts| && 0 <= k < |ts| && j != k ==> !ReachesInto(lib, f, ts[j], ts[k])
  }

  /** So the edits of a run are disjoint exactly when no target's tile reaches into another's. */
  lemma {:induction false} EditsDisjointExactly(lib: Library, f: Forest, others: seq<string>, ts: seq<EditTarget>)
    requires WellFormed(f) && Pairable(f) && Truthful(lib, f) && Chosen(lib, Print(f), others, ts)
    requires forall k, i :: 0 <= k < |ts| && HoldsTarget(f, i, ts[k]) ==> SpelledAt(lib, f, i)
    ensures Fits(|Print(f)|, EditsOf(ts)) <==> NoneReaches(lib, f, ts)
  {
    hide IsSelection, Pairable, WellFormed, Utf8, Truthful, Print, SpelledAt, HoldsTarget, ReachesInto, ApartPlaces, Fits,
         EditsOf;
    forall j, k | 0 <= j < k < |ts|
      ensures !ApartPlaces(ts[j], ts[k]) <==> ReachesInto(lib, f, ts[j], ts[k]) || ReachesInto(lib, f, ts[k], ts[j])
    {
      OverlapExactly(lib, f, others, ts, j, k);
    }
    FitsIfApart(lib, f, others, ts);
  }

  /** Then they give the same bytes in whatever order they are made. */
  lemma {:induction false} EditsCommute(lib: Library, f: Forest, others: seq<string>, ts: seq<EditTarget>, order: seq<Edit>)
    requires WellFormed(f) && Pairable(f) && Truthful(lib, f) && Chosen(lib, Print(f), others, ts)
    requires forall k, i :: 0 <= k < |ts| && HoldsTarget(f, i, ts[k]) ==> SpelledAt(lib, f, i)
    requires NoneReaches(lib, f, ts) && multiset(order) == multiset(EditsOf(ts))
    ensures Fits(|Print(f)|, EditsOf(ts)) && Fits(|Print(f)|, order)
    ensures Apply(Print(f), order) == Apply(Print(f), EditsOf(ts))
  {
    hide IsSelection, Pairable, WellFormed, Truthful, Print, SpelledAt, HoldsTarget, NoneReaches, Fits, EditsOf, Apply;
    EditsDisjointExactly(lib, f, others, ts);
    AnyOrder(lib, f, others, ts, order);
  }
}
