/** What the verdicts of `run_one` mean about packages and bytes, and what they rest on. */
module VerdictMeaning {
  import opened Sequences
  import opened Scanner
  import opened Markup
  import opened Locator
  import opened LocatorResults
  import opened Queries
  import opened Target
  import opened TargetFacts
  import opened Probe
  import opened Structure
  import opened Engine
  import opened Paging
  import opened PagingOrigins
  import opened Packages
  import opened Verdict
  import opened VerdictLaws

  /** The engine leaves the two staged copies as they are. */
  ghost predicate KeepsInputs(e: Adversary, original: seq<byte>) {
    && (forall n :: PRISTINE in e.disk(n).stage && e.disk(n).stage[PRISTINE] == original)
    && (forall n :: n >= 2 ==> EDIT in e.disk(n).stage && e.disk(n).stage[EDIT] == original)
  }

  /** `out` is `src` with the bytes from `at` on in `word/document.xml` replaced by equally many other bytes. */
  ghost predicate OneStretchChanged(src: Package, out: Package, at: nat, before: seq<byte>, after: seq<byte>) {
    && DOCUMENT in src && |before| == |after| && before != after
    && OnlyAt(src[DOCUMENT], before, at)
    && out == src[DOCUMENT := Splice(src[DOCUMENT], at, after)]
  }

  // ----- PASS -----

  /** What a PASS shows against any engine: the edited package is `edit.docx` as left, with the expected document. */
  lemma {:induction false} PassShows(t: Tools, job: Job, e: Adversary, target: EditTarget)
    requires PassRun(t, job, e, target) && CollisionFree(t.hash)
    ensures Staged(t, e) == Opened(Source(t, e)) && DOCUMENT in Source(t, e) && Resaved(t, e) == Opened(Source(t, e))
    ensures GoodTarget(Source(t, e)[DOCUMENT], target)
    ensures EditRead(t, e, target).Opened? && OutputRead(t, e, target).Opened?
    ensures DOCUMENT in EditRead(t, e, target).members
    ensures OutputRead(t, e, target).members == EditRead(t, e, target).members[DOCUMENT := target.expected]
  {
    hide GoodTarget, Utf8, IsSelection, SelectionOf, Good, MemberShas, VerifyEdit, FoundTarget, Session, Pages, Prepared;
    SameMembers(t.hash, Staged(t, e).members, Resaved(t, e).members);
    SelectionIsGood(t.lib, DocOf(t, e), t.others(Source(t, e)), Selected(target));
    ExactMeans(t.hash, DocOf(t, e), EditRead(t, e, target).members, OutputRead(t, e, target).members, target.expected,
               Utf8(target.query), Utf8(target.replacement));
  }

  /**
   A PASS against an engine that may do anything but touch its inputs: the pristine output has exactly the source's
   members, and the edited package is the source with exactly the query's stretch of `word/document.xml` replaced,
   at the leftmost place the query has in that member.
   */
  lemma {:induction false} PassMeans(t: Tools, job: Job, e: Adversary, original: seq<byte>) returns (target: EditTarget)
    requires Is(Outcome(t, job, e), Pass) && CollisionFree(t.hash) && KeepsInputs(e, original)
    ensures t.unzip(original).Opened? && PassRun(t, job, e, target)
    ensures var src := t.unzip(original).members;
            && Source(t, e) == src && Resaved(t, e) == Opened(src) && OutputRead(t, e, target).Opened?
            && OneStretchChanged(src, OutputRead(t, e, target).members, target.queryStart,
                                 Utf8(target.query), Utf8(target.replacement))
            && GoodTarget(src[DOCUMENT], target)
  {
    hide GoodTarget, Utf8, OnlyAt, Splice, PassRun, Outcome, Rejects, NothingToTest, BreaksContract, Drifts, ReadsNoObject,
         LacksDocument, ReadsDamaged, LeavesUnbound, Pages;
    EndsExactly(t, job, e);
    target :| PassRun(t, job, e, target);
    PassShows(t, job, e, target);
    assert e.disk(1).stage[PRISTINE] == original && e.disk(LastTurn(e, target)).stage[EDIT] == original;
    TargetStretch(Source(t, e)[DOCUMENT], target);
  }

  lemma {:induction false} TargetStretch(doc: seq<byte>, t: EditTarget)
    requires GoodTarget(doc, t)
    ensures |Utf8(t.query)| == |Utf8(t.replacement)| && Utf8(t.query) != Utf8(t.replacement)
    ensures OnlyAt(doc, Utf8(t.query), t.queryStart)
    ensures t.queryStart + |Utf8(t.replacement)| <= |doc| && t.expected == Splice(doc, t.queryStart, Utf8(t.replacement))
  {
    hide Utf8, IsQuery, ReplacementOr;
    ReplacesLength(Utf8(t.query), Utf8(t.replacement));
  }

  /** And the edited document scans to the same tags, at the same places, outside the replaced stretch. */
  lemma {:induction false} PassKeepsTags(t: Tools, job: Job, e: Adversary, original: seq<byte>) returns (target: EditTarget)
    requires Is(Outcome(t, job, e), Pass) && CollisionFree(t.hash) && KeepsInputs(e, original)
    ensures PassRun(t, job, e, target) && OutputRead(t, e, target).Opened?
    ensures t.unzip(original).Opened? && DOCUMENT in t.unzip(original).members && DOCUMENT in OutputRead(t, e, target).members
    ensures var before, after := Scan(t.unzip(original).members[DOCUMENT], 0), Scan(OutputRead(t, e, target).members[DOCUMENT], 0);
            && |after| == |before|
            && forall k :: 0 <= k < |before| ==>
                 (&& after[k] == before[k].(name := after[k].name)
                  && (before[k].end <= target.queryStart || target.queryEnd <= before[k].start ==> after[k] == before[k]))
  {
    hide GoodTarget, Utf8, OnlyAt, Splice, Scan, PassRun, Outcome, OutputRead, Source, Resaved;
    target := PassMeans(t, job, e, original);
    var doc := t.unzip(original).members[DOCUMENT];
    TargetStretch(doc, target);
    ExpectedDocument(doc, target);
  }

  /** Two packages hold the same members apart from `word/document.xml`, which both hold. */
  ghost predicate AgreeElsewhere(a: Package, b: Package) {
    && a.Keys == b.Keys && DOCUMENT in a
    && forall n :: n in a && n != DOCUMENT ==> a[n] == b[n]
  }

  /**
   Without the assumption a PASS says less, since the verification compares with `edit.docx` as the engine left it: the
   edited package is the source with the expected document if and only if the engine left every other member of
   `edit.docx` as in the source.
   */
  lemma {:induction false} PassExactlyWhenInputKept(t: Tools, job: Job, e: Adversary, target: EditTarget)
    requires PassRun(t, job, e, target) && CollisionFree(t.hash)
    ensures DOCUMENT in Source(t, e) && EditRead(t, e, target).Opened? && OutputRead(t, e, target).Opened?
    ensures OutputRead(t, e, target).members == Source(t, e)[DOCUMENT := target.expected] <==>
            AgreeElsewhere(EditRead(t, e, target).members, Source(t, e))
  {
    hide GoodTarget, PassRun, Source, EditRead, OutputRead, Staged, Resaved;
    PassShows(t, job, e, target);
    var src, es, eo := Source(t, e), EditRead(t, e, target).members, OutputRead(t, e, target).members;
    if eo == src[DOCUMENT := target.expected] {
      assert es.Keys == eo.Keys == src.Keys;
      forall n | n in es && n != DOCUMENT ensures es[n] == src[n] {
        assert es[n] == eo[n];
      }
    }
    if AgreeElsewhere(es, src) {
      assert es[DOCUMENT := target.expected] == src[DOCUMENT := target.expected];
    }
  }

  /** A page of the find: the first reply's data, or a page the engine gave to a further request. */
  ghost predicate PageOfFind(e: Adversary, query: string, d: Data) {
    && FindReply(e).Envelope? && FindReply(e).data.Some?
    && (FindReply(e).data.value == d || Requested(FindServer(e), query, FindReply(e).data.value, d))
  }

  /**
   A run goes on to the edit only when the engine itself called an occurrence editable: on a page of the find, in an
   entry for the very paragraph the source maps the target to; and the edit is asked for that occurrence's handle.
   */
  lemma {:induction false} EditableWhereMapped(t: Tools, job: Job, e: Adversary, target: EditTarget)
    returns (d: Data, m: Match, o: Occurrence)
    requires TargetFound(t, job, e, target)
    ensures PageOfFind(e, target.query, d) && m in d.matches && Lists(m, o) && o.editable
    ensures target.paragraphId.Some? && m.paragraph == ParagraphName(target.paragraphId.value)
    ensures SaveAnswer(e, target) ==
            Session(e, 2 + Pages(e, target.query).pages, EditAndSave(o.handle, target.replacement), 3)
  {
    hide FindAnswered, Collect, HarvestRaises, Requested, ParagraphName, FindServer, Session, FindReply, FoundOf, Harvest, PageHits;
    PagesAreOver(e, target.query);
    d, m, o := ReportedAsListed(FindServer(e), target.query, FindReply(e).data.value);
  }

  lemma {:induction false} PagesAreOver(e: Adversary, query: string)
    requires Pages(e, query).ending.Over?
    ensures FindReply(e).Envelope? && FindReply(e).data.Some?
    ensures !HarvestRaises([], PageHits(FindReply(e).data.value.matches))
    ensures Pages(e, query) == Collecting(FindServer(e), query, FindReply(e).data.value)
  {
    hide HarvestRaises, PageHits, FindReply, FindServer, Collect;
  }

  /** In particular no PASS without it. */
  lemma {:induction false} PassWasEditable(t: Tools, job: Job, e: Adversary)
    returns (target: EditTarget, d: Data, m: Match, o: Occurrence)
    requires Is(Outcome(t, job, e), Pass)
    ensures PassRun(t, job, e, target) && PageOfFind(e, target.query, d) && m in d.matches && Lists(m, o) && o.editable
    ensures target.paragraphId.Some? && m.paragraph == ParagraphName(target.paragraphId.value)
  {
    hide Outcome, Rejects, NothingToTest, BreaksContract, Drifts, ReadsNoObject, LacksDocument, ReadsDamaged, LeavesUnbound,
         PageOfFind, Lists, ParagraphName, Verified, LastArchived, TargetFound, EditRead, OutputRead, Good;
    EndsExactly(t, job, e);
    target :| PassRun(t, job, e, target);
    d, m, o := EditableWhereMapped(t, job, e, target);
  }

  /** What the find has to show, exactly: one hit, editable, in the paragraph with the target's number. */
  lemma {:induction false} FoundExactly(hits: seq<Hit>, target: EditTarget)
    ensures FoundTarget(FoundOf(hits), target) <==>
            && |hits| == 1 && hits[0].editable
            && target.paragraphId.Some? && hits[0].paragraph == ParagraphName(target.paragraphId.value)
  {
    hide ParagraphName;
  }

  /** The file is missing from the stage directory. */
  predicate Missing(e: Adversary, turn: nat, name: string) {
    name !in e.disk(turn).stage
  }

  /** A package that is missing when it is to be read, or is no archive, leaves the run without a category. */
  lemma {:induction false} MissingIsIncomplete(t: Tools, job: Job, e: Adversary)
    requires PristineReopened(t, job, e)
    requires Missing(e, 1, "pristine.docx") || (Staged(t, e).Opened? && Missing(e, 1, "pristine-out.docx"))
    ensures IsIncomplete(Outcome(t, job, e))
  {
    hide Good, Session, Need, Gated, OpenFailure, Succeeded;
    GoodMeans(FirstSession(e), "pristine", "pristine");
    GoodMeans(SecondSession(e), "pristine-reopen", "pristine-reopen");
    GoodAlso(FirstSession(e));
    GoodAlso(SecondSession(e));
  }

  lemma {:induction false} MissingEditIsIncomplete(t: Tools, job: Job, e: Adversary, target: EditTarget)
    requires EditReopened(t, job, e, target)
    requires Missing(e, LastTurn(e, target), "edit.docx")
             || (EditRead(t, e, target).Opened? && Missing(e, LastTurn(e, target), "edit-out.docx"))
    ensures IsIncomplete(Outcome(t, job, e))
  {
    hide Outcome, EditRun, SaveRun, Good, Session, TargetFound, Mapped, Choice, Pages, DocOf, FoundOf;
    InTheEdit(t, job, e, target);
    OutcomeOfEdit(t, job, e, target);
    EditRunIs(t, job, e, target);
    SavedIsRead(t, job, e, target);
  }

  lemma {:induction false} InTheEdit(t: Tools, job: Job, e: Adversary, target: EditTarget)
    requires EditReopened(t, job, e, target)
    ensures TargetFound(t, job, e, target) && Mapped(t, job, e) && Choice(t, e) == Selected(target)
  {
    hide Good, Mapped, Choice, Pages, FoundTarget, FoundOf;
  }

  lemma {:induction false} SavedIsRead(t: Tools, job: Job, e: Adversary, target: EditTarget)
    requires EditReopened(t, job, e, target)
    ensures var c := Pages(e, target.query);
            SaveRun(t, job, e, DocOf(t, e), target, c.pages, FoundOf(c.hits).handle)
            == ReadRun(t, job, e.disk(LastTurn(e, target)), DocOf(t, e), target)
  {
    hide Session, Need, Gated, Succeeded, TargetFound, Pages, DocOf, FoundOf, ReadRun;
    GoodMeans(SaveAnswer(e, target), "edit-save", "edit-save");
    GoodMeans(ReopenAnswer(e, target), "edit-reopen", "edit-reopen");
    GoodAlso(SaveAnswer(e, target));
    GoodAlso(ReopenAnswer(e, target));
  }

  /** The first diagnostic that names a paragraph is the one that counts. */
  lemma {:induction false} NamedIsFirst(diags: seq<Diag>)
    ensures match NamedDiag(diags)
            case None => forall i :: 0 <= i < |diags| ==> diags[i].paragraph == ""
            case Some(d) =>
              exists i :: 0 <= i < |diags| && diags[i] == d && d.paragraph != "" && forall j :: 0 <= j < i ==> diags[j].paragraph == ""
  {
    if diags != [] && diags[0].paragraph == "" {
      NamedIsFirst(diags[1..]);
      assert diags == [diags[0]] + diags[1..];
      if NamedDiag(diags).Some? {
        var rest := diags[1..];
        var i :| 0 <= i < |rest| && rest[i] == NamedDiag(diags).value && forall j :: 0 <= j < i ==> rest[j].paragraph == "";
        assert diags[i + 1] == rest[i];
        assert forall j :: 0 < j < i + 1 ==> diags[j] == rest[j - 1];
      }
    }
  }

  // ----- EXPECTED_REJECT and NOT_APPLICABLE -----

  /** Nothing was lost or changed in the stage directory, and every new file is a sidecar. */
  ghost predicate OnlySidecarsAdded(before: Tree, after: Tree) {
    && (forall n :: n in before ==> n in after && after[n] == before[n])
    && (forall n :: n in after && n !in before ==> SidecarPath(n))
  }

  /** The document that was staged and read, with no safe target in it. */
  ghost predicate ReadWithoutTarget(t: Tools, original: seq<byte>) {
    && t.unzip(original).Opened? && DOCUMENT in t.unzip(original).members
    && var src := t.unzip(original).members;
       exists why :: IsSelection(t.lib, src[DOCUMENT], t.others(src), Refused(why))
  }

  lemma {:induction false} SourceIsOriginal(t: Tools, job: Job, e: Adversary, original: seq<byte>)
    requires Mapped(t, job, e) && Choice(t, e).Refused? && KeepsInputs(e, original)
    ensures ReadWithoutTarget(t, original) && DocOf(t, e) == t.unzip(original).members[DOCUMENT]
  {
    hide IsSelection, SelectionOf, Good, MemberShas, Prepared;
    assert e.disk(1).stage[PRISTINE] == original;
    var src := t.unzip(original).members;
    var s := SelectionOf(t.lib, src[DOCUMENT], t.others(src));
    assert s == Choice(t, e) && s == Refused(s.why);
  }

  /**
   The engine reported one occurrence, in the paragraph the source maps the probe to, and refused it with a code that an
   element below that paragraph bears out by its name.
   */
  ghost predicate RefusedWhereMapped(find: Envelope, p: ProbeTarget, kids: Forest) {
    && find.Envelope? && find.data.Some? && |find.data.value.matches| == 1
    && var m := find.data.value.matches[0];
       && |m.occurrences| == 1 && !m.occurrences[0].editable
       && p.paragraphId.Some? && m.paragraph == ParagraphName(p.paragraphId.value)
       && HasOneOf(kids, NamesFor(m.occurrences[0].code)) && p.flags.Any()
  }

  /**
   An EXPECTED_REJECT from the probe, against an engine that keeps its inputs: in the document that was staged there is
   no safe target, the probe is a text of one of its locked paragraphs, the engine refused exactly there, for a reason
   that paragraph's own structure bears out, and it wrote nothing but sidecars.
   */
  lemma {:induction false} ProbeRejectMeans(t: Tools, job: Job, e: Adversary, p: ProbeTarget, original: seq<byte>)
    requires ProbeReject(t, job, e, p) && CollisionFree(t.hash) && KeepsInputs(e, original)
    ensures PristineGood(t, job, e) && ReadWithoutTarget(t, original)
    ensures IsProbe(t.lib, t.unzip(original).members[DOCUMENT], p)
    ensures var root := t.lib.parse(t.unzip(original).members[DOCUMENT]);
            root.Some? && p.ordinal < |Paragraphs(root.value)|
            && RefusedWhereMapped(ProbeReply(e, p), p, Paragraphs(root.value)[p.ordinal].kids)
    ensures OnlySidecarsAdded(e.disk(1).stage, e.disk(2).stage)
  {
    hide IsProbe, ProbeOf, OnlyExpectedCreation, SidecarPath, PristineGood, SelectionOf, IsSelection, Good, Session,
         ReadWithoutTarget, Paragraphs, ParagraphFlags, HasOneOf, CodeMatches, NamesFor;
    SourceIsOriginal(t, job, e, original);
    ProbeOfIs(t.lib, DocOf(t, e));
    CleanMeans(t.hash, e.disk(1).stage, e.disk(2).stage);
    CodeNeedsFlags(p);
    ProbeInParagraph(t.lib, DocOf(t, e), p);
    var m := ProbeReply(e, p).data.value.matches[0];
    var kids := Paragraphs(t.lib.parse(DocOf(t, e)).value)[p.ordinal].kids;
    CodeByName(m.occurrences[0].code, kids);
  }

  /**
   What the probe's reply comes to: it leaves the paragraph unassigned unless it succeeded with one match; reading it raises
   when its data is no object, or when that match has one occurrence that cannot be read; and it refuses when that one
   occurrence is not editable, in the probe's paragraph, with a code an element below it bears out.
   */
  lemma {:induction false} ProbeReplyExactly(find: Envelope, p: ProbeTarget, kids: Forest)
    requires find.Envelope? && p.flags == ParagraphFlags(kids)
    ensures ProbeRaises(find) <==>
            find.data.None? || (&& find.outcome == "success" && |find.data.value.matches| == 1
                                && |find.data.value.matches[0].occurrences| == 1
                                && (find.data.value.matches[0].occurrences[0].shape == NoObject
                                    || find.data.value.matches[0].occurrences[0].shape == NoVerdict))
    ensures find.data.Some? ==> (Unbound(find) <==> find.outcome != "success" || |find.data.value.matches| != 1)
    ensures find.data.Some? ==>
              (Refuses(find, p) <==>
                 && find.outcome == "success" && |find.data.value.matches| == 1
                 && var m := find.data.value.matches[0];
                    && |m.occurrences| == 1 && !m.occurrences[0].editable
                    && p.paragraphId.Some? && m.paragraph == ParagraphName(p.paragraphId.value)
                    && HasOneOf(kids, NamesFor(m.occurrences[0].code)))
  {
    hide RefusalJustified, HasOneOf, NamesFor, ParagraphName, ParagraphFlags;
    if find.data.Some? && |find.data.value.matches| == 1 && |find.data.value.matches[0].occurrences| == 1 {
      var m := find.data.value.matches[0];
      RefusalByName(p, kids, m.paragraph, m.occurrences[0].code);
    }
  }

  lemma {:induction false} ProbeInParagraph(lib: Library, doc: seq<byte>, p: ProbeTarget)
    requires IsProbe(lib, doc, p)
    ensures lib.parse(doc).Some? && p.ordinal < |Paragraphs(lib.parse(doc).value)|
    ensures p.flags == ParagraphFlags(Paragraphs(lib.parse(doc).value)[p.ordinal].kids)
  {
    hide Paragraphs, ParagraphFlags, Locate, Scan, Directs, Utf8;
  }

  /** A code that matches the structure finds some flag set. */
  lemma {:induction false} CodeNeedsFlags(p: ProbeTarget)
    ensures forall code :: CodeMatches(code, p.flags) ==> p.flags.Any()
  {}

  /** NOT_APPLICABLE, in the same terms: neither a safe target nor any text that could be probed, in the staged document. */
  lemma {:induction false} NotApplicableMeans(t: Tools, job: Job, e: Adversary, original: seq<byte>)
    requires Is(Outcome(t, job, e), NotApplicable) && KeepsInputs(e, original)
    ensures PristineGood(t, job, e) && ReadWithoutTarget(t, original)
    ensures NoProbe(t.lib, t.unzip(original).members[DOCUMENT])
  {
    hide Outcome, Passes, Rejects, BreaksContract, Drifts, ReadsNoObject, LacksDocument, ReadsDamaged, LeavesUnbound,
         NoProbe, ProbeOf, PristineGood, SelectionOf, ReadWithoutTarget;
    EndsExactly(t, job, e);
    SourceIsOriginal(t, job, e, original);
    ProbeOfIs(t.lib, DocOf(t, e));
  }

  /**
   A diagnostic is borne out exactly when the document parses, the scan counts as many direct paragraphs as the tree, the
   name reads as the number of one of them, and an element below that one has a name the code needs.
   */
  lemma {:induction false} ProvesExactly(t: Tools, docxml: seq<byte>, diag: Diag)
    ensures Proves(t, docxml, diag) <==>
            && t.lib.parse(docxml).Some? && Locate(Scan(docxml, 0)).Some?
            && var paras := Paragraphs(t.lib.parse(docxml).value);
               && |Directs(Locate(Scan(docxml, 0)).value)| == |paras|
               && ParagraphNumber(diag.paragraph).Some? && ParagraphNumber(diag.paragraph).value < |paras|
               && HasOneOf(paras[ParagraphNumber(diag.paragraph).value].kids, NamesFor(diag.code))
  {
    hide Scan, Locate, Paragraphs, ParagraphFlags, Directs, CodeMatches, ParagraphNumber, HasOneOf, NamesFor;
    var flags := NamedFlags(t, docxml, diag.paragraph);
    if flags.Some? {
      CodeByName(diag.code, Paragraphs(t.lib.parse(docxml).value)[ParagraphNumber(diag.paragraph).value].kids);
      MatchNeedsFlag(diag.code, flags.value);
    }
  }

  lemma {:induction false} MatchNeedsFlag(code: string, flags: Flags)
    ensures CodeMatches(code, flags) ==> flags.Any()
  {}

  /**
   An EXPECTED_REJECT at open: the refusal names by number a paragraph of the staged copy, an element below that paragraph
   bears the code out by its name, the staged copy is untouched, no output appeared, and nothing but sidecars was written.
   */
  lemma {:induction false} OpenRejectMeans(t: Tools, job: Job, e: Adversary, diag: Diag)
    requires OpenReject(t, job, e, diag) && CollisionFree(t.hash)
    ensures OnlySidecarsAdded(map[PRISTINE := job.staged], e.disk(0).stage) && PRISTINE_OUT !in e.disk(0).stage
    ensures t.unzip(job.staged).Opened? && DOCUMENT in t.unzip(job.staged).members
    ensures var docxml := t.unzip(job.staged).members[DOCUMENT];
            && t.lib.parse(docxml).Some? && ParagraphNumber(diag.paragraph).Some?
            && var paras := Paragraphs(t.lib.parse(docxml).value);
               && ParagraphNumber(diag.paragraph).value < |paras|
               && HasOneOf(paras[ParagraphNumber(diag.paragraph).value].kids, NamesFor(diag.code))
  {
    hide OnlyExpectedCreation, Scan, Locate, Paragraphs, ParagraphFlags, Directs, CodeMatches, NamedDiag, Session, ParagraphNumber,
         Good, SidecarPath;
    CleanMeans(t.hash, map[PRISTINE := job.staged], e.disk(0).stage);
    assert e.disk(0).stage[PRISTINE] == job.staged;
    var paras := Paragraphs(t.lib.parse(t.unzip(job.staged).members[DOCUMENT]).value);
    CodeByName(diag.code, paras[ParagraphNumber(diag.paragraph).value].kids);
  }
}
