/** Concrete documents and engines: a run that passes, one that passes with a touched input, and runs that leave no row. */
module RunExamples {
  import opened Sequences
  import opened Scanner
  import opened Markup
  import opened Locator
  import opened LocatorResults
  import opened TextRanges
  import opened TextPairing
  import opened Queries
  import opened Target
  import opened TargetFacts
  import opened PredictedEdit
  import opened Probe
  import opened SampleDocs
  import opened Engine
  import opened Paging
  import opened Packages
  import opened Verdict
  import opened VerdictLaws
  import opened VerdictMeaning

  const QUERY: string := "abcdefgh"
  const QB: seq<byte> := [97, 98, 99, 100, 101, 102, 103, 104]
  // ----- the text `abcdefgh` in its document -----

  lemma {:induction false} QueryIs()
    ensures Utf8(QUERY) == QB && IsQuery(QUERY) && Letters(QUERY)
  {
    Utf8Concat("abcd", "efgh");
    assert QUERY == "abcd" + "efgh";
    FourBytes('a', 'b', 'c', 'd');
    FourBytes('e', 'f', 'g', 'h');
  }

  lemma {:induction false} FourBytes(a: char, b: char, c: char, d: char)
    requires Alnum(a) && Alnum(b) && Alnum(c) && Alnum(d)
    ensures Utf8([a, b, c, d]) == [a as int, b as int, c as int, d as int]
  {
    Utf8Concat([a], [b]);
    Utf8Concat([c], [d]);
    Utf8Concat([a, b], [c, d]);
    Utf8One(a);
    Utf8One(b);
    Utf8One(c);
    Utf8One(d);
    assert [a] + [b] == [a, b] && [c] + [d] == [c, d] && [a, b] + [c, d] == [a, b, c, d];
  }

  lemma {:induction false} FoundOnce<T>(q: seq<T>)
    requires q != []
    ensures Count(q, q, 0) == 1 && Find(q, q, 0) == 0
  {
    assert At(q, q, 0);
    CountOne(q, q);
  }

  lemma {:induction false} TextOnce()
    ensures FoldedCount(LibOf(R_LOCAL, QUERY), [QUERY], QUERY) == 1 && FoldedCount(LibOf(SDT, QUERY), [QUERY], QUERY) == 1
  {
    hide Count;
    FoundOnce(QUERY);
    assert [QUERY][1..] == [];
    assert FoldedCount(LibOf(R_LOCAL, QUERY), [], QUERY) == 0 && FoldedCount(LibOf(SDT, QUERY), [], QUERY) == 0;
  }

  lemma {:induction false} BytesOnce(mid: seq<byte>)
    requires Middle(mid)
    ensures Count(Print(Doc(mid, QUERY)), QB, 0) == 1 && Count(QB, QB, 0) == 1
  {
    hide Count, Find, Print, Lead, Trail, Utf8;
    DocBytes(mid, QUERY);
    AroundText(mid);
    QueryIs();
    CountInside(Lead(mid), QB, Trail(mid), QB);
    FoundOnce(QB);
  }

  lemma {:induction false} InnerIsAll(mid: seq<byte>)
    requires Middle(mid)
    ensures PySlice(Print(Doc(mid, QUERY)), 14 + |mid|, 22 + |mid|) == QB && Find(QB, QB, 0) == 0
    ensures 22 + |mid| <= |Print(Doc(mid, QUERY))|
  {
    hide Print, Lead, Trail, Utf8, Find;
    QueryIs();
    DocBytes(mid, QUERY);
    FoundOnce(QB);
    MiddleIs(Lead(mid), QB, Trail(mid));
  }

  lemma {:induction false} SafeHere(v: View)
    requires ViewIs(R_LOCAL, QUERY, [], v)
    ensures Safe(v, Cand(0, 0, QUERY))
  {
    hide Utf8, Count, Find, Print, Safe;
    QueryIs();
    FoundOnce(QUERY);
    FoundOnce(QB);
    SafeInSample(QUERY, [], v, QUERY);
  }

  lemma {:induction false} StripNothing()
    ensures StripText(QUERY) == QUERY && ProbeQuery(QUERY) == QUERY
  {}

  lemma {:induction false} ProbableHere(v: View)
    requires ViewIs(SDT, QUERY, [], v)
    ensures Probable(v, 0, QUERY)
  {
    hide Utf8, Count, Print, FoldedCount, PySlice, StripText, ProbeQuery;
    QueryIs();
    StripNothing();
    InnerIsAll(SDT);
    TextOnce();
    BytesOnce(SDT);
    assert v.lib.fold(QUERY) == QUERY;
  }

  // ----- the run in the paragraph can be edited -----

  /** The selection on this document, in its `P0`. */
  lemma {:induction false} Selects() returns (s: EditTarget)
    ensures SelectionOf(LibOf(R_LOCAL, QUERY), Print(Doc(R_LOCAL, QUERY)), []) == Selected(s)
    ensures s.query == QUERY && s.paragraphId == Some(0)
  {
    hide Utf8, Print, Safe, ViewIs, LibOf, Doc, IsSelection;
    QueryIs();
    var c := Cand(0, 0, QUERY);
    assert CandidateQueries(QUERY) == [QUERY] && QueryCands(0, 0, [QUERY]) == [c];
    forall v | ViewIs(R_LOCAL, QUERY, [], v) ensures FirstSafe(v, [c]) == Some(c) {
      SafeHere(v);
    }
    s := SampleSelected(QUERY, [], c);
    SelectionIs(LibOf(R_LOCAL, QUERY), Print(Doc(R_LOCAL, QUERY)), [], Selected(s));
  }

  // ----- the control in the paragraph can only be probed -----

  lemma {:induction false} NoCand()
    ensures AllCands(LibOf(SDT, QUERY), 0, Paragraphs(Doc(SDT, QUERY))) == []
  {
    hide ParagraphFlags, RefCands, PlainText, Paragraphs;
    DocParas(SDT, QUERY);
    ControlLocks(QUERY);
    var paras := Paragraphs(Doc(SDT, QUERY));
    assert paras[1..] == [] && AllCands(LibOf(SDT, QUERY), 1, []) == [];
  }

  lemma {:induction false} Refuses()
    ensures SelectionOf(LibOf(SDT, QUERY), Print(Doc(SDT, QUERY)), []) == Refused(NoSafeTarget)
  {
    hide Utf8, Scan, Locate, Handle, Paragraphs, AllCands, Callbacks, PlainText, Print, Own, Directs, ViewOf, Fine, RangesOf;
    var lib, doc := LibOf(SDT, QUERY), Print(Doc(SDT, QUERY));
    QueryIs();
    DocLocated(SDT, QUERY);
    DocParas(SDT, QUERY);
    DocRanges(SDT, QUERY);
    TheView(SDT, QUERY, []);
    NoCand();
    assert FirstSafe(ViewOf(lib, doc, [], Doc(SDT, QUERY), Own(Doc(SDT, QUERY), 0)), []).None?;
    SelectionIs(lib, doc, [], Refused(NoSafeTarget));
  }

  lemma {:induction false} Probes() returns (p: ProbeTarget)
    ensures ProbeOf(LibOf(SDT, QUERY), Print(Doc(SDT, QUERY))) == Some(p)
  {
    hide Utf8, Scan, Locate, Handle, Paragraphs, Callbacks, PlainText, Print, Own, Directs, ViewOf, Fine, RangesOf, Probable,
         ProbeAt, ParagraphFlags;
    var lib, doc := LibOf(SDT, QUERY), Print(Doc(SDT, QUERY));
    QueryIs();
    DocLocated(SDT, QUERY);
    DocParas(SDT, QUERY);
    DocRanges(SDT, QUERY);
    TheView(SDT, QUERY, []);
    ControlLocks(QUERY);
    DocFine(SDT, QUERY);
    FineMeans(Wrapping(SDT, QUERY), QUERY);
    var v := ViewOf(lib, doc, [], Doc(SDT, QUERY), Own(Doc(SDT, QUERY), 0));
    ProbableHere(v);
    var entries := Directs(Locate(Scan(doc, 0)).value);
    var found := ProbeAt(v, 0, QUERY, 0, entries[0].id, ParagraphFlags(Wrapping(SDT, QUERY)));
    ProbeThere(v, 0, QUERY, 0, entries[0].id, ParagraphFlags(Wrapping(SDT, QUERY)));
    assert Texts(lib, OwnKids(Wrapping(SDT, QUERY))) == [QUERY];
    assert ParaProbe(v, ThePara(SDT, QUERY), 0, entries[0].id) == found;
    assert FirstOf(v, [ThePara(SDT, QUERY)], entries, 0) == found;
    p := found.value;
  }

  lemma {:induction false} ProbeThere(v: View, index: nat, text: string, ordinal: nat, id: Option<nat>, flags: Flags)
    requires Probable(v, index, text)
    ensures ProbeAt(v, index, text, ordinal, id, flags).Some?
  {
    hide Probable, Utf8, ProbeQuery;
  }

  // ----- the engine -----

  const ORIGINAL: seq<byte> := [0]
  const EDITED: seq<byte> := [1]
  const TOUCHED: seq<byte> := [2]
  const OTHER: string := "word/other.xml"

  const DATA: Data := Data([Match("P0", [Occurrence("h", Readable, true, "")], Occurrence("", Readable, false, ""))],
                           Counts(Some(true), 0, 1, Some(1)), None)
  const GOOD: Envelope := Envelope("success", [], Some(DATA))
  const NO_MATCH: Envelope := Envelope("success", [], Some(NO_DATA))

  /** It answers every session with success and one editable hit in `P0`, and a probe with no match at all. */
  function Replying(n: nat, req: Request): Answer {
    Lines([OkLine(GOOD), OkLine(if req.ProbeFind? then NO_MATCH else GOOD), OkLine(GOOD)])
  }

  /** The engine that leaves `edit` in place of `edit.docx`, and `late` of the archived original from the edit on. */
  function EngineOf(edit: seq<byte>, late: seq<byte>): Adversary {
    Adversary(Replying,
              n => Disk(map["pristine.docx" := ORIGINAL, "pristine-out.docx" := ORIGINAL, "edit.docx" := edit, "edit-out.docx" := EDITED],
                        Some(if n >= 3 then late else ORIGINAL)))
  }

  function PackageOf(docxml: seq<byte>, other: byte): Package {
    map["word/document.xml" := docxml, OTHER := [other]]
  }

  function Chars(b: seq<byte>): string {
    seq(|b|, i requires 0 <= i < |b| => b[i] as char)
  }

  lemma {:induction false} CharsApart(a: seq<byte>, b: seq<byte>)
    ensures Chars(a) == Chars(b) ==> a == b
  {
    if Chars(a) == Chars(b) {
      assert |a| == |Chars(a)| && |b| == |Chars(b)|;
      forall i | 0 <= i < |a| ensures a[i] == b[i] {
        assert Chars(a)[i] == a[i] as char && Chars(b)[i] == b[i] as char;
      }
    }
  }

  /** The tools for a document, an edited one, and what the other member holds in the edited package. */
  function ToolsOf(mid: seq<byte>, expected: seq<byte>, other: byte): Tools {
    Tools(LibOf(mid, QUERY), Chars,
          b => Opened(if b == EDITED then PackageOf(expected, other)
                      else if b == TOUCHED then PackageOf(Print(Doc(mid, QUERY)), 8) else PackageOf(Print(Doc(mid, QUERY)), 7)),
          _ => [])
  }

  lemma {:induction false} ToolsGood(mid: seq<byte>, expected: seq<byte>, other: byte)
    ensures CollisionFree(ToolsOf(mid, expected, other).hash)
  {
    forall a, b ensures Chars(a) == Chars(b) ==> a == b {
      CharsApart(a, b);
    }
  }

  const JOB: Job := Job(true, Chars(ORIGINAL), Some(ORIGINAL), ORIGINAL, true, true)

  lemma {:induction false} ThreeReplies(a: Envelope, b: Envelope, c: Envelope)
    ensures Replies([OkLine(a), OkLine(b), OkLine(c)]) == [a, b, c]
  {
    var lines := [OkLine(a), OkLine(b), OkLine(c)];
    RepliesFrom(lines, 0);
    RepliesFrom(lines, 1);
    RepliesFrom(lines, 2);
    RepliesFrom(lines, 3);
  }

  lemma {:induction false} Answers(e: Adversary, turn: nat, req: Request, n: nat)
    requires e.answer == Replying && n <= 3
    ensures var s := Session(e, turn, req, n);
            && Good(s, {}) && |s.envs| == n
            && forall i :: 0 <= i < n ==> s.envs[i] == (if i == 1 && req.ProbeFind? then NO_MATCH else GOOD) && Succeeded(s.envs[i])
  {
    hide Replies;
    ThreeReplies(GOOD, if req.ProbeFind? then NO_MATCH else GOOD, GOOD);
    var s := Session(e, turn, req, n);
    NeedMeans(s.envs);
    assert !IsTransportError(GOOD) && !IsTransportError(NO_MATCH);
    forall k | 0 <= k < n ensures s.envs[k].Envelope? && !IsTransportError(s.envs[k]) {
      assert s.envs[k] == GOOD || s.envs[k] == NO_MATCH;
    }
    NeedIsClean(s.envs);
  }

  lemma {:induction false} NeedIsClean(envs: seq<Envelope>)
    requires forall k :: 0 <= k < |envs| ==> envs[k].Envelope? && !IsTransportError(envs[k])
    ensures Need(envs).Passed?
  {
    hide IsTransportError;
    NeedMeans(envs);
  }

  lemma {:induction false} PristineHappens(mid: seq<byte>, expected: seq<byte>, other: byte, edit: seq<byte>, late: seq<byte>)
    ensures var t, e := ToolsOf(mid, expected, other), EngineOf(edit, late);
            && PristineGood(t, JOB, e) && Mapped(t, JOB, e)
            && Source(t, e) == PackageOf(Print(Doc(mid, QUERY)), 7) && DocOf(t, e) == Print(Doc(mid, QUERY))
            && Choice(t, e) == SelectionOf(LibOf(mid, QUERY), Print(Doc(mid, QUERY)), [])
  {
    hide Session, Need, Print, Doc, LibOf, SelectionOf, Succeeded;
    var e := EngineOf(edit, late);
    Answers(e, 0, PristineRun, 2);
    Answers(e, 1, ReopenPristine, 2);
    GoodAlso(FirstSession(e));
    GoodAlso(SecondSession(e));
  }

  lemma {:induction false} OneFound(e: Adversary, query: string)
    ensures Collecting(FindServer(e), query, DATA) == Collected([Hit("h", Readable, true, "", "P0")], 1, Over)
  {
    hide FindServer;
    var hits := [Hit("h", Readable, true, "", "P0")];
    assert DATA.matches[1..] == [];
    assert EntryHits(DATA.matches[0]) == hits;
    assert PageHits(DATA.matches) == hits;
    assert hits[1..] == [];
    assert Harvest([], hits) == hits && !HarvestRaises([], hits);
  }

  lemma {:induction false} NameOfZero()
    ensures ParagraphName(0) == "P0"
  {}

  /** The whole way up to the verification. */
  lemma {:induction false} EditHappens(s: EditTarget, other: byte, edit: seq<byte>, late: seq<byte>)
    requires SelectionOf(LibOf(R_LOCAL, QUERY), Print(Doc(R_LOCAL, QUERY)), []) == Selected(s) && s.paragraphId == Some(0)
    ensures var t, e := ToolsOf(R_LOCAL, s.expected, other), EngineOf(edit, late);
            && EditReopened(t, JOB, e, s) && LastTurn(e, s) == 4
  {
    hide Session, Need, Print, Doc, LibOf, SelectionOf, Succeeded, Mapped, Choice, Collecting, ParagraphName;
    var t, e := ToolsOf(R_LOCAL, s.expected, other), EngineOf(edit, late);
    PristineHappens(R_LOCAL, s.expected, other, edit, late);
    Answers(e, 2, FindPage(0), 2);
    GoodAlso(FindAnswer(e));
    OneFound(e, s.query);
    NameOfZero();
    Answers(e, 3, EditAndSave("h", s.replacement), 3);
    GoodAlso(SaveAnswer(e, s));
    Answers(e, 4, ReopenEdit, 2);
    GoodAlso(ReopenAnswer(e, s));
  }

  lemma {:induction false} FilesRead(s: EditTarget, other: byte, edit: seq<byte>, late: seq<byte>)
    requires LastTurn(EngineOf(edit, late), s) == 4
    ensures var t, e := ToolsOf(R_LOCAL, s.expected, other), EngineOf(edit, late);
            && EditRead(t, e, s) == t.unzip(edit) && OutputRead(t, e, s) == t.unzip(EDITED) && LastArchived(e, s) == Some(late)
  {
    hide LastTurn, LibOf, Doc, Print, Replying;
  }

  lemma {:induction false} ExactHere(s: EditTarget, other: byte)
    ensures var t := ToolsOf(R_LOCAL, s.expected, other);
            EditExact(t, Print(Doc(R_LOCAL, QUERY)), s, PackageOf(Print(Doc(R_LOCAL, QUERY)), other), PackageOf(s.expected, other))
  {
    hide LibOf, Doc, Print, VerifyEdit, MemberShas, Utf8, Chars;
    var t := ToolsOf(R_LOCAL, s.expected, other);
    var doc := Print(Doc(R_LOCAL, QUERY));
    var from, out := PackageOf(doc, other), PackageOf(s.expected, other);
    assert out == from[DOCUMENT := s.expected];
    ToolsGood(R_LOCAL, s.expected, other);
    ExactMeans(t.hash, doc, from, out, s.expected, Utf8(s.query), Utf8(s.replacement));
  }

  lemma {:induction false} CheckHappens(s: EditTarget, other: byte, edit: seq<byte>, late: seq<byte>)
    requires SelectionOf(LibOf(R_LOCAL, QUERY), Print(Doc(R_LOCAL, QUERY)), []) == Selected(s) && s.paragraphId == Some(0)
    requires (edit == ORIGINAL && other == 7) || (edit == TOUCHED && other == 8)
    ensures var t, e := ToolsOf(R_LOCAL, s.expected, other), EngineOf(edit, late);
            && Checked(t, JOB, e, s) && Verified(t, e, s) && LastArchived(e, s) == Some(late)
            && OutputRead(t, e, s) == Opened(PackageOf(s.expected, other))
  {
    hide Session, Print, Doc, LibOf, SelectionOf, EditReopened, EditExact, LastTurn, DocOf, EditRead, OutputRead, LastArchived,
         Mapped, PristineGood, Choice, Source, Replying, Chars;
    EditHappens(s, other, edit, late);
    FilesRead(s, other, edit, late);
    PristineHappens(R_LOCAL, s.expected, other, edit, late);
    ExactHere(s, other);
  }

  // ----- the runs -----

  /** There is a PASS of the kind that `PassMeans` speaks of. */
  lemma {:induction false} PassHappens() returns (t: Tools, e: Adversary)
    ensures Is(Outcome(t, JOB, e), Pass) && CollisionFree(t.hash) && KeepsInputs(e, ORIGINAL)
  {
    hide Checked, Verified, Outcome, Print, Rejects, NothingToTest, BreaksContract, Drifts, ReadsNoObject, LacksDocument,
         ReadsDamaged, LeavesUnbound, LastArchived, CollisionFree, KeepsInputs, LibOf, Doc, SelectionOf, Replying, Chars;
    var s := Selects();
    t, e := ToolsOf(R_LOCAL, s.expected, 7), EngineOf(ORIGINAL, ORIGINAL);
    CheckHappens(s, 7, ORIGINAL, ORIGINAL);
    ToolsGood(R_LOCAL, s.expected, 7);
    assert PassRun(t, JOB, e, s);
    EndsExactly(t, JOB, e);
    InputsKept();
  }

  lemma {:induction false} InputsKept()
    ensures KeepsInputs(EngineOf(ORIGINAL, ORIGINAL), ORIGINAL)
  {
    hide Replying;
  }

  /**
   There is a run that passes although the edited package is not the source with the expected document: the engine has
   changed another member of `edit.docx` and carried it over.
   */
  lemma {:induction false} TouchedInputPasses() returns (t: Tools, e: Adversary, target: EditTarget)
    ensures Is(Outcome(t, JOB, e), Pass) && CollisionFree(t.hash) && PassRun(t, JOB, e, target)
    ensures DOCUMENT in Source(t, e) && OutputRead(t, e, target).Opened?
    ensures OutputRead(t, e, target).members != Source(t, e)[DOCUMENT := target.expected]
  {
    hide Checked, Verified, Outcome, Print, Rejects, NothingToTest, BreaksContract, Drifts, ReadsNoObject, LacksDocument,
         ReadsDamaged, LeavesUnbound, LastArchived, Source, OutputRead;
    target := Selects();
    t, e := ToolsOf(R_LOCAL, target.expected, 8), EngineOf(TOUCHED, ORIGINAL);
    CheckHappens(target, 8, TOUCHED, ORIGINAL);
    ToolsGood(R_LOCAL, target.expected, 8);
    assert PassRun(t, JOB, e, target);
    EndsExactly(t, JOB, e);
    PristineHappens(R_LOCAL, target.expected, 8, TOUCHED, ORIGINAL);
    assert PackageOf(target.expected, 8)[OTHER] != PackageOf(Print(Doc(R_LOCAL, QUERY)), 7)[DOCUMENT := target.expected][OTHER];
  }

  /** There is a run that stops the whole scan at its very end, the archive having changed meanwhile. */
  lemma {:induction false} LateDriftHappens() returns (t: Tools, e: Adversary)
    ensures Outcome(t, JOB, e) == ManifestDrift && t.hash(ORIGINAL) == JOB.sha
  {
    hide Checked, Outcome, Print, Rejects, NothingToTest, BreaksContract, Passes, ReadsNoObject, LacksDocument,
         ReadsDamaged, LeavesUnbound, LastArchived;
    var s := Selects();
    t, e := ToolsOf(R_LOCAL, s.expected, 7), EngineOf(ORIGINAL, EDITED);
    CheckHappens(s, 7, ORIGINAL, EDITED);
    CharsApart(EDITED, ORIGINAL);
    assert LateDrift(t, JOB, e, s);
    EndsExactly(t, JOB, e);
  }

  /** Whatever the tools, one line `OK []` from the engine ends the run without a row. */
  lemma {:induction false} NoObjectHappens(t: Tools, job: Job, e: Adversary)
    requires Prepared(t, job) && e.answer(0, PristineRun) == Lines([OkNoObject])
    ensures Outcome(t, job, e) == Crashed(NotAnObject)
  {
    hide Outcome, Rejects, NothingToTest, BreaksContract, Passes, Drifts, LacksDocument, ReadsDamaged, LeavesUnbound, Prepared;
    assert OkNoObject in [OkNoObject];
    assert Session(e, 0, PristineRun, 2).Unread?;
    EndsExactly(t, job, e);
  }

  /** So does a document without `word/document.xml`. */
  lemma {:induction false} MissingMemberHappens(lib: Library)
    ensures var t := Tools(lib, Chars, _ => Opened(map[]), _ => []);
            Outcome(t, JOB, EngineOf(ORIGINAL, ORIGINAL)) == Crashed(MissingMember)
  {
    hide Outcome, Rejects, NothingToTest, BreaksContract, Passes, Drifts, ReadsNoObject, ReadsDamaged, LeavesUnbound, Session,
         Need, Succeeded;
    var t, e := Tools(lib, Chars, _ => Opened(map[]), _ => []), EngineOf(ORIGINAL, ORIGINAL);
    Answers(e, 0, PristineRun, 2);
    Answers(e, 1, ReopenPristine, 2);
    GoodAlso(FirstSession(e));
    GoodAlso(SecondSession(e));
    assert PristineGood(t, JOB, e) && DOCUMENT !in Source(t, e);
    EndsExactly(t, JOB, e);
  }

  /** So does one with a member that cannot be unpacked. */
  lemma {:induction false} DamagedMemberHappens(lib: Library)
    ensures var t := Tools(lib, Chars, _ => Damaged, _ => []);
            Outcome(t, JOB, EngineOf(ORIGINAL, ORIGINAL)) == Crashed(DamagedMember)
  {
    hide Outcome, Rejects, NothingToTest, BreaksContract, Passes, Drifts, ReadsNoObject, LacksDocument, LeavesUnbound, Session,
         Need, Succeeded;
    var t, e := Tools(lib, Chars, _ => Damaged, _ => []), EngineOf(ORIGINAL, ORIGINAL);
    Answers(e, 0, PristineRun, 2);
    Answers(e, 1, ReopenPristine, 2);
    GoodAlso(FirstSession(e));
    GoodAlso(SecondSession(e));
    assert PristineReopened(t, JOB, e) && Staged(t, e).Damaged?;
    EndsExactly(t, JOB, e);
  }

  /** So does a probe that the engine answers, quite soundly, with no match. */
  lemma {:induction false} UnboundHappens()
    ensures Outcome(ToolsOf(SDT, [], 7), JOB, EngineOf(ORIGINAL, ORIGINAL)) == Crashed(UnboundParagraph)
  {
    hide Outcome, Rejects, NothingToTest, BreaksContract, Passes, Drifts, ReadsNoObject, LacksDocument, ReadsDamaged, Session,
         Need, Succeeded, Mapped, Choice, SelectionOf, ProbeOf, Print, Doc, LibOf, DocOf, Source;
    var t, e := ToolsOf(SDT, [], 7), EngineOf(ORIGINAL, ORIGINAL);
    PristineHappens(SDT, [], 7, ORIGINAL, ORIGINAL);
    Refuses();
    var p := Probes();
    assert Probing(t, JOB, e, p);
    Answers(e, 2, ProbeFind(p.query), 2);
    assert UnboundAfter(t, JOB, e, p);
    EndsExactly(t, JOB, e);
  }
}
