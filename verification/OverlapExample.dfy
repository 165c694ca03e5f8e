/** A run of two targets that overlap. */
module OverlapExample {
  import opened Sequences
  import opened Markup
  import opened Queries
  import opened Target
  import opened TargetFacts
  import opened TextRanges
  import opened Spelling
  import opened PredictedEdit
  import opened SafeTargets
  import opened SafeOverlap
  import opened SampleDocs

  // ----- why self-overlap matters -----

  const ZS: string := seq(22, i => 'z')
  const PERIODIC: string := ZS + "ababababab"

  /**
   The text `zz...zab` + `abababab`: its tiles `[0, 24)` and `[24, 32)` lie apart and each query counts one, yet the
   second one is found at 22, inside the first.
   */
  lemma {:induction false} PeriodicQueriesOverlap()
    ensures Tiles(PERIODIC, 0) == [Tile(0, 24), Tile(24, 32)]
    ensures PERIODIC[24..32] == "abababab" && Count(PERIODIC, "abababab", 0) == 1 && Find(PERIODIC, "abababab", 0) == 22
    ensures Count(PERIODIC, PERIODIC[0..24], 0) == 1 && Find(PERIODIC, PERIODIC[0..24], 0) == 0
  {
    PeriodicTiles();
    var q := "abababab";
    assert |PERIODIC| == 32;
    forall j | 0 <= j < 22 ensures !At(PERIODIC, q, j) {
      NotAt(PERIODIC, q, j, 0);
    }
    assert PERIODIC[22..30] == q;
    FindIs(PERIODIC, q, 0, 22);
    assert Find(PERIODIC, q, 30) == -1;
    assert PERIODIC[24..32] == q;
    var a := PERIODIC[0..24];
    assert At(PERIODIC, a, 0);
    FindIs(PERIODIC, a, 0, 0);
    assert Find(PERIODIC, a, 24) == -1;
  }

  lemma {:induction false} PeriodicTiles()
    ensures Tiles(PERIODIC, 0) == [Tile(0, 24), Tile(24, 32)]
  {
    assert |PERIODIC| == 32 && QueryChars(PERIODIC);
    AllRun(PERIODIC, 0);
    AllRun(PERIODIC, 24);
    assert Reach(PERIODIC, 0) == 24 && Reach(PERIODIC, 24) == 8;
    assert Tiles(PERIODIC, 32) == [];
    assert Tiles(PERIODIC, 24) == [Tile(24, 32)] + [];
  }

  const FIRST: string := ZS + "ab"
  const SECOND: string := "abababab"

  lemma {:induction false} PeriodicLetters()
    ensures |PERIODIC| == 32 && PERIODIC[0..24] == FIRST && PERIODIC[24..32] == SECOND
    ensures forall i :: 0 <= i < 32 ==> Alnum(PERIODIC[i])
    ensures Letters(PERIODIC) && Letters(FIRST) && Letters(SECOND) && !IsQuery(PERIODIC)
  {}

  lemma {:induction false} PeriodicQueries()
    ensures CandidateQueries(PERIODIC) == [FIRST, SECOND]
    ensures QueryCands(0, 0, [FIRST, SECOND]) == [Cand(0, 0, FIRST), Cand(0, 0, SECOND)]
  {
    hide FIRST, SECOND, PERIODIC, IsQuery, Tiles;
    PeriodicLetters();
    PeriodicTiles();
    CandidatesAreTiles(PERIODIC);
  }

  /** In a text of digits and Latin letters, searching the bytes is searching the text. */
  lemma {:induction false} SameSearch(s: string, q: string)
    requires q != "" && (forall i :: 0 <= i < |s| ==> Alnum(s[i])) && (forall i :: 0 <= i < |q| ==> Alnum(q[i]))
    requires Count(s, q, 0) == 1
    ensures Count(Utf8(s), Utf8(q), 0) == 1 && Find(Utf8(s), Utf8(q), 0) == Find(s, q, 0)
  {
    hide Utf8, At, Count;
    var sb, qb := Utf8(s), Utf8(q);
    OwnBytes(s);
    OwnBytes(q);
    forall j ensures At(s, q, j) <==> At(sb, qb, j) {
      SameAt(s, q, sb, qb, j);
    }
    CountOne(s, q);
    FindIs(sb, qb, 0, Find(s, q, 0));
    CountOne(sb, qb);
  }

  lemma {:induction false} SameAt(s: string, q: string, sb: seq<byte>, qb: seq<byte>, j: int)
    requires |s| == |sb| && |q| == |qb|
    requires (forall i :: 0 <= i < |s| ==> sb[i] == s[i] as int) && (forall i :: 0 <= i < |q| ==> qb[i] == q[i] as int)
    ensures At(s, q, j) <==> At(sb, qb, j)
  {
    if 0 <= j && j + |q| <= |s| {
      AtIndex(s, q, j);
      AtIndex(sb, qb, j);
    }
  }

  lemma {:induction false} BothFound()
    ensures Count(PERIODIC, FIRST, 0) == 1 && Count(Utf8(PERIODIC), Utf8(FIRST), 0) == 1
    ensures Find(Utf8(PERIODIC), Utf8(FIRST), 0) == 0 && |Utf8(FIRST)| == 24
    ensures Count(PERIODIC, SECOND, 0) == 1 && Count(Utf8(PERIODIC), Utf8(SECOND), 0) == 1
    ensures Find(Utf8(PERIODIC), Utf8(SECOND), 0) == 22 && |Utf8(SECOND)| == 8
    ensures |Utf8(PERIODIC)| == 32
  {
    hide Utf8, Count, Find;
    PeriodicLetters();
    PeriodicQueriesOverlap();
    SameSearch(PERIODIC, FIRST);
    SameSearch(PERIODIC, SECOND);
    OwnBytes(PERIODIC);
    OwnBytes(FIRST);
    OwnBytes(SECOND);
  }

  lemma {:induction false} NotInFirst()
    ensures Find(FIRST, SECOND, 0) < 0 && Find(FIRST, FIRST, 0) >= 0
  {
    assert |FIRST| == 24 && |SECOND| == 8;
    forall j | 0 <= j ensures !At(FIRST, SECOND, j) {
      NotAt(FIRST, SECOND, j, 0);
    }
    assert At(FIRST, FIRST, 0);
  }

  /** With nothing excluded the first candidate is safe; with that one excluded the second one is the first safe one. */
  lemma {:induction false} SafeOnes(v: View, others: seq<string>)
    requires ViewIs(R_LOCAL, PERIODIC, others, v) && (others == [] || others == [FIRST])
    ensures FirstSafe(v, [Cand(0, 0, FIRST), Cand(0, 0, SECOND)]) == Some(Cand(0, 0, if others == [] then FIRST else SECOND))
  {
    hide Utf8, Count, Find, Safe, PERIODIC, ViewIs;
    PeriodicLetters();
    BothFound();
    NotInFirst();
    SafeInSample(PERIODIC, others, v, FIRST);
    SafeInSample(PERIODIC, others, v, SECOND);
    var cands := [Cand(0, 0, FIRST), Cand(0, 0, SECOND)];
    assert cands[1..] == [Cand(0, 0, SECOND)] && (others != [] ==> others[0] == FIRST);
  }

  lemma {:induction false} PeriodicTarget(others: seq<string>) returns (t: EditTarget)
    requires others == [] || others == [FIRST]
    ensures IsSelection(LibOf(R_LOCAL, PERIODIC), Print(Doc(R_LOCAL, PERIODIC)), others, Selected(t))
    ensures t.query == (if others == [] then FIRST else SECOND) && t.replacement == ReplacementFor(t.query)
    ensures t.wtStart == 15 && t.wtEnd == 47
    ensures t.queryStart == (if others == [] then 15 else 37) && t.queryEnd == (if others == [] then 39 else 45)
  {
    hide Utf8, Count, Find, Safe, PERIODIC, FIRST, SECOND, IsSelection, Print, Doc, LibOf, ViewIs, ReplacementFor, FirstSafe,
         CandidateQueries;
    PeriodicLetters();
    PeriodicQueries();
    BothFound();
    var c := Cand(0, 0, if others == [] then FIRST else SECOND);
    forall v | ViewIs(R_LOCAL, PERIODIC, others, v)
      ensures FirstSafe(v, QueryCands(0, 0, CandidateQueries(PERIODIC))) == Some(c)
    {
      SafeOnes(v, others);
    }
    t := SampleSelected(PERIODIC, others, c);
  }

  lemma {:induction false} SampleFits(s: string)
    requires Letters(s)
    ensures var f, lib := Doc(R_LOCAL, s), LibOf(R_LOCAL, s);
            WellFormed(f) && Pairable(f) && Truthful(lib, f) && forall i: nat :: i < TextCount(f) ==> SpelledAt(lib, f, i)
  {
    hide Utf8, Print, PlainText, Pairable, Doc, TilesSpelled, Callbacks, Fine;
    DocFine(R_LOCAL, s);
    FineMeans(Doc(R_LOCAL, s), s);
    PrintText(Utf8(s));
    PlainIsSpelled(s);
  }

  /** The replaced bytes at the overlap: `a` from the first edit, `b` from the second. */
  lemma {:induction false} Replacements()
    ensures var x, y := Utf8(ReplacementFor(FIRST)), Utf8(ReplacementFor(SECOND));
            |x| == 24 && |y| == 8 && x[22] == 97 && y[0] == 98
  {
    hide Utf8;
    var p, q := ReplacementFor(FIRST), ReplacementFor(SECOND);
    assert FirstAlnum(FIRST, 0) == 0 && FirstAlnum(SECOND, 0) == 0;
    ReplacementDiffers(FIRST);
    ReplacementDiffers(SECOND);
    assert p[22] == 'a' && q[0] == 'b';
    OwnBytes(p);
    OwnBytes(q);
  }

  /** Two edits that leave different bytes in the two orders. */
  ghost predicate OrderMatters(doc: seq<byte>, edits: seq<Edit>) {
    && |edits| == 2 && (forall e :: e in edits ==> e.start + |e.bytes| <= |doc|)
    && Apply(doc, [edits[0], edits[1]]) != Apply(doc, [edits[1], edits[0]])
  }

  lemma {:induction false} OverlappingEdits(doc: seq<byte>, at: nat, x: seq<byte>, y: seq<byte>)
    requires at + 30 <= |doc| && |x| == 24 && |y| == 8 && x[22] != y[0]
    ensures var e, d := Edit(at, x), Edit(at + 22, y); Apply(doc, [e, d]) != Apply(doc, [d, e])
  {
    var e, d := Edit(at, x), Edit(at + 22, y);
    ApplyTwo(doc, e, d);
    ApplyTwo(doc, d, e);
    var a, b := Splice(Splice(doc, at, x), at + 22, y), Splice(Splice(doc, at + 22, y), at, x);
    assert a[at + 22] == y[0] && b[at + 22] == x[22];
  }

  lemma {:induction false} ApplyTwo(doc: seq<byte>, e: Edit, d: Edit)
    requires e.start + |e.bytes| <= |doc| && d.start + |d.bytes| <= |doc|
    ensures Apply(doc, [e, d]) == Splice(Splice(doc, e.start, e.bytes), d.start, d.bytes)
  {
    assert [e, d][1..] == [d] && [d][1..] == [];
    assert Apply(Splice(Splice(doc, e.start, e.bytes), d.start, d.bytes), []) == Splice(Splice(doc, e.start, e.bytes), d.start, d.bytes);
  }

  /**
   The document `<body><p><r><t>` around that text, in which everything the theorems on overlap ask for holds:
   `find_safe_targets` finds two targets in it and no others, at `[0, 24)` and `[22, 30)` of the one `w:t`, and what the
   two edits leave depends on which one is made first.
   */
  lemma {:induction false} TargetsOverlap() returns (ts: seq<EditTarget>)
    ensures var f, lib := Doc(R_LOCAL, PERIODIC), LibOf(R_LOCAL, PERIODIC);
            && WellFormed(f) && Pairable(f) && Truthful(lib, f) && Chosen(lib, Print(f), [], ts)
            && (forall i: nat :: i < TextCount(f) ==> SpelledAt(lib, f, i))
            && (forall us :: Chosen(lib, Print(f), [], us) && |us| == 2 ==> us == ts)
    ensures |ts| == 2 && ts[0].wtStart == ts[1].wtStart && ts[0].wtEnd == ts[1].wtEnd
    ensures ts[0].queryStart == ts[0].wtStart && ts[0].queryEnd == ts[0].wtStart + 24
    ensures ts[1].queryStart == ts[1].wtStart + 22 && ts[1].queryEnd == ts[1].wtStart + 30
    ensures !ApartPlaces(ts[0], ts[1])
    ensures OrderMatters(Print(Doc(R_LOCAL, PERIODIC)), EditsOf(ts))
  {
    hide IsSelection, Print, PERIODIC, FIRST, SECOND, Pairable, LibOf, Doc, Truthful, SpelledAt, Utf8, ReplacementFor,
         OrderMatters, TextCount, WellFormed, Chosen, QueriesOf, EditsOf;
    PeriodicLetters();
    SampleFits(PERIODIC);
    var f, lib := Doc(R_LOCAL, PERIODIC), LibOf(R_LOCAL, PERIODIC);
    var s := PeriodicTarget([]);
    var t := PeriodicTarget([FIRST]);
    ts := [s, t];
    TwoChosen(lib, Print(f), s, t);
    OnlyThese(lib, Print(f), ts);
    TheseClash(lib, Print(f), s, t);
  }

  lemma {:induction false} TheseClash(lib: Library, doc: seq<byte>, s: EditTarget, t: EditTarget)
    requires IsSelection(lib, doc, [], Selected(s)) && s.query == FIRST && s.queryStart == 15 && s.wtEnd == 47
    requires t.replacement == ReplacementFor(SECOND) && t.queryStart == 37
    ensures OrderMatters(doc, EditsOf([s, t]))
  {
    hide IsSelection, FIRST, SECOND, Utf8, ReplacementFor, Apply;
    SelectionIsGood(lib, doc, [], Selected(s));
    Replacements();
    OverlappingEdits(doc, 15, Utf8(s.replacement), Utf8(t.replacement));
  }

  lemma {:induction false} OnlyThese(lib: Library, doc: seq<byte>, ts: seq<EditTarget>)
    requires Chosen(lib, doc, [], ts) && |ts| == 2
    ensures forall us :: Chosen(lib, doc, [], us) && |us| == 2 ==> us == ts
  {
    hide Chosen;
    forall us | Chosen(lib, doc, [], us) && |us| == 2 ensures us == ts {
      ChosenOnce(lib, doc, [], ts, us);
      assert us[..2] == us;
    }
  }

  lemma {:induction false} TwoChosen(lib: Library, doc: seq<byte>, s: EditTarget, t: EditTarget)
    requires IsSelection(lib, doc, [], Selected(s)) && IsSelection(lib, doc, [s.query], Selected(t))
    ensures Chosen(lib, doc, [], [s, t])
  {
    hide IsSelection;
    var ts := [s, t];
    assert ts[..0] == [] && ts[..1] == [s];
    assert [] + QueriesOf([]) == [] && [] + QueriesOf([s]) == [s.query];
    forall k | 0 <= k < 2 ensures IsSelection(lib, doc, [] + QueriesOf(ts[..k]), Selected(ts[k])) {
      if k == 1 {
        assert ts[..k] == [s];
      }
    }
  }
}
