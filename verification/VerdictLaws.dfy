/** Exactly when a run ends how: every verdict, every end without a row, and what a failing session leads to. */
module VerdictLaws {
  import opened Sequences
  import opened Target
  import opened TargetFacts
  import opened Probe
  import opened Engine
  import opened Paging
  import opened Packages
  import opened Verdict

  // ----- sessions, as a reader of the engine's answers sees them -----

  /** A session that ran, passed the transport gate, and whose n-th reply succeeded for each n in `must`. */
  ghost predicate Good(s: SessionEnd, must: set<nat>) {
    s.Answered? && Need(s.envs).Passed? && forall i :: i in must ==> i < |s.envs| && Succeeded(s.envs[i])
  }

  /** A timeout, a failed start, a missing reply or a transport error. */
  ghost predicate Fails(s: SessionEnd) {
    s.Unavailable? || (s.Answered? && Need(s.envs).Failed?)
  }

  /** A reply, or an `OK` line, that is read as an object and is none. */
  ghost predicate Breaks(s: SessionEnd) {
    s.Unread? || (s.Answered? && Need(s.envs).Raises?)
  }

  // ----- how far a run gets -----

  ghost predicate Prepared(t: Tools, job: Job) {
    && job.pathOk && job.archived.Some? && t.hash(job.archived.value) == job.sha
    && job.spaceBefore && t.hash(job.staged) == job.sha
  }

  function FirstSession(e: Adversary): SessionEnd {
    Session(e, 0, PristineRun, 2)
  }

  function SecondSession(e: Adversary): SessionEnd {
    Session(e, 1, ReopenPristine, 2)
  }

  ghost predicate PristineSaved(t: Tools, job: Job, e: Adversary) {
    Prepared(t, job) && Good(FirstSession(e), {0, 1})
  }

  ghost predicate PristineReopened(t: Tools, job: Job, e: Adversary) {
    PristineSaved(t, job, e) && Good(SecondSession(e), {0})
  }

  function Staged(t: Tools, e: Adversary): Unzipped {
    ReadPackage(t, e.disk(1), PRISTINE)
  }

  function Resaved(t: Tools, e: Adversary): Unzipped {
    ReadPackage(t, e.disk(1), PRISTINE_OUT)
  }

  /** The package the run reads as its source. */
  function Source(t: Tools, e: Adversary): Package {
    match Staged(t, e)
    case Opened(members) => members
    case _ => map[]
  }

  /** The pristine lifecycle went through: both packages were read and have the same members. */
  ghost predicate PristineGood(t: Tools, job: Job, e: Adversary) {
    && PristineReopened(t, job, e) && Staged(t, e).Opened? && Resaved(t, e).Opened?
    && MemberShas(t.hash, Staged(t, e).members) == MemberShas(t.hash, Resaved(t, e).members)
  }

  ghost predicate Mapped(t: Tools, job: Job, e: Adversary) {
    PristineGood(t, job, e) && DOCUMENT in Source(t, e)
  }

  function DocOf(t: Tools, e: Adversary): seq<byte> {
    if DOCUMENT in Source(t, e) then Source(t, e)[DOCUMENT] else []
  }

  ghost function Choice(t: Tools, e: Adversary): Selection {
    SelectionOf(t.lib, DocOf(t, e), t.others(Source(t, e)))
  }

  /** No safe target, and a probe of a locked paragraph. */
  ghost predicate Probing(t: Tools, job: Job, e: Adversary, p: ProbeTarget) {
    Mapped(t, job, e) && Choice(t, e).Refused? && ProbeOf(t.lib, DocOf(t, e)) == Some(p)
  }

  function ProbeAnswer(e: Adversary, p: ProbeTarget): SessionEnd {
    Session(e, 2, ProbeFind(p.query), 2)
  }

  /** The reply to its find. */
  function ProbeReply(e: Adversary, p: ProbeTarget): Envelope {
    if ProbeAnswer(e, p).Answered? then ProbeAnswer(e, p).envs[1] else NoEnvelope
  }

  /** The probe session ran and passed the transport gate. */
  ghost predicate Probed(t: Tools, job: Job, e: Adversary, p: ProbeTarget) {
    Probing(t, job, e, p) && Good(ProbeAnswer(e, p), {}) && ProbeReply(e, p).Envelope?
  }

  /** Its find reply could be read, and the staged source was still there to be hashed. */
  ghost predicate ProbeHeard(t: Tools, job: Job, e: Adversary, p: ProbeTarget) {
    Probed(t, job, e, p) && !ProbeRaises(ProbeReply(e, p)) && PRISTINE in e.disk(2).stage
  }

  ghost predicate Finding(t: Tools, job: Job, e: Adversary, target: EditTarget) {
    && Mapped(t, job, e) && Choice(t, e) == Selected(target)
    && job.spaceBeforeEdit && e.disk(1).archived.Some?
  }

  function FindAnswer(e: Adversary): SessionEnd {
    Session(e, 2, FindPage(0), 2)
  }

  function FindReply(e: Adversary): Envelope {
    if FindAnswer(e).Answered? then FindAnswer(e).envs[1] else NoEnvelope
  }

  /** The document opened for the edit, and the find session passed the gate. */
  ghost predicate FindAnswered(t: Tools, job: Job, e: Adversary, target: EditTarget) {
    Finding(t, job, e, target) && Good(FindAnswer(e), {0}) && FindReply(e).Envelope?
  }

  /** The pages from the first one on; a first reply without an object for its data raises. */
  function Pages(e: Adversary, query: string): Collected {
    if FindReply(e).Envelope? && FindReply(e).data.Some? then Collecting(FindServer(e), query, FindReply(e).data.value)
    else Collected([], 1, Raised)
  }

  /** The find shows one editable occurrence, in the paragraph the source maps the target to. */
  ghost predicate TargetFound(t: Tools, job: Job, e: Adversary, target: EditTarget) {
    var c := Pages(e, target.query);
    FindAnswered(t, job, e, target) && c.ending.Over? && FoundTarget(FoundOf(c.hits), target)
  }

  function SaveAnswer(e: Adversary, target: EditTarget): SessionEnd {
    var c := Pages(e, target.query);
    Session(e, 2 + c.pages, EditAndSave(FoundOf(c.hits).handle, target.replacement), 3)
  }

  /** The turn of the last session. */
  function LastTurn(e: Adversary, target: EditTarget): nat {
    3 + Pages(e, target.query).pages
  }

  function ReopenAnswer(e: Adversary, target: EditTarget): SessionEnd {
    Session(e, LastTurn(e, target), ReopenEdit, 2)
  }

  ghost predicate EditSaved(t: Tools, job: Job, e: Adversary, target: EditTarget) {
    TargetFound(t, job, e, target) && Good(SaveAnswer(e, target), {1, 2})
  }

  ghost predicate EditReopened(t: Tools, job: Job, e: Adversary, target: EditTarget) {
    EditSaved(t, job, e, target) && Good(ReopenAnswer(e, target), {0})
  }

  function EditRead(t: Tools, e: Adversary, target: EditTarget): Unzipped {
    ReadPackage(t, e.disk(LastTurn(e, target)), EDIT)
  }

  function OutputRead(t: Tools, e: Adversary, target: EditTarget): Unzipped {
    ReadPackage(t, e.disk(LastTurn(e, target)), EDIT_OUT)
  }

  /** Both packages of the edit have been read. */
  ghost predicate BothRead(t: Tools, job: Job, e: Adversary, target: EditTarget) {
    EditReopened(t, job, e, target) && EditRead(t, e, target).Opened? && OutputRead(t, e, target).Opened?
  }

  /** And the edited one holds its document. */
  ghost predicate Checked(t: Tools, job: Job, e: Adversary, target: EditTarget) {
    BothRead(t, job, e, target) && DOCUMENT in OutputRead(t, e, target).members
  }

  ghost predicate Verified(t: Tools, e: Adversary, target: EditTarget)
    requires EditRead(t, e, target).Opened? && OutputRead(t, e, target).Opened?
  {
    EditExact(t, DocOf(t, e), target, EditRead(t, e, target).members, OutputRead(t, e, target).members)
  }

  /** The archived original as the run leaves it. */
  function LastArchived(e: Adversary, target: EditTarget): Option<seq<byte>> {
    e.disk(LastTurn(e, target)).archived
  }

  /** Everything a PASS has shown. */
  ghost predicate PassRun(t: Tools, job: Job, e: Adversary, target: EditTarget) {
    && Checked(t, job, e, target) && Verified(t, e, target)
    && LastArchived(e, target).Some? && t.hash(LastArchived(e, target).value) == job.sha
  }

  // ----- a refused open -----

  ghost predicate OpenRefused(t: Tools, job: Job, e: Adversary) {
    Prepared(t, job) && Good(FirstSession(e), {}) && !Succeeded(FirstSession(e).envs[0])
  }

  /** The open was refused with a named paragraph and a code, and nothing was written but sidecars. */
  ghost predicate NamedRefusal(t: Tools, job: Job, e: Adversary, diag: Diag) {
    && OpenRefused(t, job, e) && FirstSession(e).envs[0].Envelope?
    && OpenClean(t, job, e.disk(0)) && NamedDiag(FirstSession(e).envs[0].diags) == Some(diag) && diag.code != ""
  }

  function OpenedCopy(t: Tools, e: Adversary): Unzipped {
    ReadPackage(t, e.disk(0), PRISTINE)
  }

  /** The refusal that counts: the named paragraph of the staged copy bears the code out. */
  ghost predicate OpenReject(t: Tools, job: Job, e: Adversary, diag: Diag) {
    && NamedRefusal(t, job, e, diag) && OpenedCopy(t, e).Opened? && DOCUMENT in OpenedCopy(t, e).members
    && Proves(t, OpenedCopy(t, e).members[DOCUMENT], diag)
  }

  /** What past the gate is an object. */
  lemma {:induction false} GoodMeans(s: SessionEnd, late: string, failed: string)
    ensures Gated(s, late, failed).GoesOn? <==> Good(s, {})
    ensures Good(s, {}) ==> s.Answered? && Gated(s, late, failed) == GoesOn(s.envs)
    ensures Good(s, {}) ==> forall k :: 0 <= k < |s.envs| ==> s.envs[k].Envelope? && !IsTransportError(s.envs[k])
    ensures Fails(s) ==> exists stage :: Gated(s, late, failed) == Ends(Incomplete(stage))
    ensures Breaks(s) <==> Gated(s, late, failed) == Ends(Crashed(NotAnObject))
    ensures Good(s, {}) || Fails(s) || Breaks(s)
    ensures Gated(s, late, failed).Ends? ==> Gated(s, late, failed).result == Crashed(NotAnObject)
                                             || IsIncomplete(Gated(s, late, failed).result)
  {
    hide Need, IsTransportError;
    NeedPasses(s, late, failed);
  }

  lemma {:induction false} GoodAlso(s: SessionEnd)
    requires s.Answered? ==> |s.envs| >= 2
    ensures Good(s, {0}) <==> Good(s, {}) && Succeeded(s.envs[0])
    ensures Good(s, {0, 1}) <==> Good(s, {}) && Succeeded(s.envs[0]) && Succeeded(s.envs[1])
    ensures s.Answered? && |s.envs| == 3 ==> (Good(s, {1, 2}) <==> Good(s, {}) && Succeeded(s.envs[1]) && Succeeded(s.envs[2]))
  {
    hide Need, Succeeded;
  }

  // ----- stage by stage -----

  lemma {:induction false} OpenFailureEnds(t: Tools, job: Job, e: Adversary)
    requires OpenRefused(t, job, e) && FirstSession(e).envs[0].Envelope? && !IsTransportError(FirstSession(e).envs[0])
    ensures var r := OpenFailure(t, job, e.disk(0), FirstSession(e).envs[0]);
            && (Is(r, ExpectedReject) <==> exists diag :: OpenReject(t, job, e, diag))
            && (r == Crashed(MissingMember) <==>
                  (exists diag :: NamedRefusal(t, job, e, diag)) && OpenedCopy(t, e).Opened?
                  && DOCUMENT !in OpenedCopy(t, e).members)
            && (r == Crashed(DamagedMember) <==>
                  (exists diag :: NamedRefusal(t, job, e, diag)) && OpenedCopy(t, e).Damaged?)
            && (IsIncomplete(r) || Is(r, ExpectedReject) || r == Crashed(MissingMember) || r == Crashed(DamagedMember))
  {
    hide Need, Session, Succeeded, IsTransportError, NamedDiag, OpenClean, Proves, Prepared;
    var d := e.disk(0);
    CopyThere(t, job, d);
    var named := NamedDiag(FirstSession(e).envs[0].diags);
    if OpenClean(t, job, d) && named.Some? && named.value.code != "" {
      assert NamedRefusal(t, job, e, named.value);
      var copy := OpenedCopy(t, e);
      assert copy.Opened? && DOCUMENT in copy.members && Proves(t, copy.members[DOCUMENT], named.value) ==>
          OpenReject(t, job, e, named.value);
    }
  }

  lemma {:induction false} CopyThere(t: Tools, job: Job, d: Disk)
    ensures OpenClean(t, job, d) ==> PRISTINE in d.stage
  {}

  lemma {:induction false} PristineEnds(t: Tools, job: Job, e: Adversary)
    requires Prepared(t, job)
    ensures var s := PristineStage(t, job, e);
            && (s.GoesOn? <==> PristineGood(t, job, e))
            && (s.GoesOn? ==> s.value == Source(t, e))
            && (s.Ends? ==>
                  var r := s.result;
                  && (r.Crashed? || r.Finished?) && !Is(r, Pass) && !Is(r, NotApplicable)
                  && (Is(r, ExpectedReject) <==> exists diag :: OpenReject(t, job, e, diag))
                  && (Is(r, ContractFailure) <==> PristineFails(t, job, e))
                  && (r == Crashed(NotAnObject) <==>
                        Breaks(FirstSession(e)) || (PristineSaved(t, job, e) && Breaks(SecondSession(e))))
                  && (r == Crashed(MissingMember) <==>
                        (exists diag :: NamedRefusal(t, job, e, diag)) && OpenedCopy(t, e).Opened?
                        && DOCUMENT !in OpenedCopy(t, e).members)
                  && (r == Crashed(DamagedMember) <==> PristineDamaged(t, job, e))
                  && r != Crashed(UnboundParagraph))
    ensures Fails(FirstSession(e)) || (PristineSaved(t, job, e) && Fails(SecondSession(e))) ==>
              PristineStage(t, job, e).Ends? && IsIncomplete(PristineStage(t, job, e).result)
  {
    hide Good, Fails, Breaks, Session, Succeeded, OpenFailure, MemberShas, ReadPackage, Prepared, Proves, Gated, Need,
         IsTransportError, OpenClean, NamedDiag, Incomplete;
    var s0, s1 := FirstSession(e), SecondSession(e);
    GoodMeans(s0, "pristine", "pristine");
    GoodMeans(s1, "pristine-reopen", "pristine-reopen");
    GoodAlso(s0);
    GoodAlso(s1);
    IncompleteIs();
    if Good(s0, {}) && !Succeeded(s0.envs[0]) {
      OpenFailureEnds(t, job, e);
    }
  }

  lemma {:induction false} IncompleteIs()
    ensures forall stage :: IsIncomplete(Incomplete(stage))
  {}

  /** A save or a reopening that was refused, or an output whose members differ. */
  ghost predicate PristineFails(t: Tools, job: Job, e: Adversary) {
    || (Prepared(t, job) && Good(FirstSession(e), {0}) && !Succeeded(FirstSession(e).envs[1]))
    || (PristineSaved(t, job, e) && Good(SecondSession(e), {}) && !Succeeded(SecondSession(e).envs[0]))
    || (&& PristineReopened(t, job, e) && Staged(t, e).Opened? && Resaved(t, e).Opened?
        && MemberShas(t.hash, Staged(t, e).members) != MemberShas(t.hash, Resaved(t, e).members))
  }

  ghost predicate PristineDamaged(t: Tools, job: Job, e: Adversary) {
    || ((exists diag :: NamedRefusal(t, job, e, diag)) && OpenedCopy(t, e).Damaged?)
    || (PristineReopened(t, job, e) && (Staged(t, e).Damaged? || (Staged(t, e).Opened? && Resaved(t, e).Damaged?)))
  }

  // ----- the probe -----

  /** The refusal that counts: by the paragraph and for the reason that the source bears out, writing nothing but sidecars. */
  ghost predicate ProbeReject(t: Tools, job: Job, e: Adversary, p: ProbeTarget) {
    ProbeHeard(t, job, e, p) && Refuses(ProbeReply(e, p), p) && ProbeClean(t, e.disk(1), e.disk(2))
  }

  ghost predicate ProbeBreaks(t: Tools, job: Job, e: Adversary, p: ProbeTarget) {
    Probing(t, job, e, p) && (Breaks(ProbeAnswer(e, p)) || (Probed(t, job, e, p) && ProbeRaises(ProbeReply(e, p))))
  }

  ghost predicate UnboundAfter(t: Tools, job: Job, e: Adversary, p: ProbeTarget) {
    ProbeHeard(t, job, e, p) && Unbound(ProbeReply(e, p))
  }

  lemma {:induction false} ProbeEnds(t: Tools, job: Job, e: Adversary, p: ProbeTarget)
    requires Probing(t, job, e, p)
    ensures var r := ProbeSession(t, e, p);
            && (r.Crashed? || r.Finished?) && !Is(r, Pass) && !Is(r, NotApplicable)
            && (Is(r, ExpectedReject) <==> ProbeReject(t, job, e, p))
            && (Is(r, ContractFailure) <==> ProbeWrote(t, job, e, p))
            && (r == Crashed(NotAnObject) <==> ProbeBreaks(t, job, e, p))
            && (r == Crashed(UnboundParagraph) <==> UnboundAfter(t, job, e, p))
            && r != Crashed(MissingMember) && r != Crashed(DamagedMember)
            && (Fails(ProbeAnswer(e, p)) ==> IsIncomplete(r))
  {
    hide Good, Fails, Breaks, Session, Gated, Need, IsTransportError, CleanSince, Probing, RefusalJustified, Incomplete;
    var s := ProbeAnswer(e, p);
    GoodMeans(s, "pristine-reopen", "unsupported-probe");
    NeedPasses(s, "pristine-reopen", "unsupported-probe");
    IncompleteIs();
  }

  /** The probe was heard, assigned its paragraph, and left more than sidecars behind. */
  ghost predicate ProbeWrote(t: Tools, job: Job, e: Adversary, p: ProbeTarget) {
    ProbeHeard(t, job, e, p) && !Unbound(ProbeReply(e, p)) && !ProbeClean(t, e.disk(1), e.disk(2))
  }

  // ----- the edit -----

  /** An edit or a save that was refused, a reopening that was refused, or a verification that is not exact. */
  ghost predicate SaveFails(t: Tools, job: Job, e: Adversary, target: EditTarget) {
    || (TargetFound(t, job, e, target) && Good(SaveAnswer(e, target), {}) && !Good(SaveAnswer(e, target), {1, 2}))
    || (EditSaved(t, job, e, target) && Good(ReopenAnswer(e, target), {}) && !Good(ReopenAnswer(e, target), {0}))
    || VerifyFails(t, job, e, target)
  }

  /** The edited package was read and is not the expected one. */
  ghost predicate VerifyFails(t: Tools, job: Job, e: Adversary, target: EditTarget) {
    && Checked(t, job, e, target) && !Verified(t, e, target)
    && LastArchived(e, target).Some? && t.hash(LastArchived(e, target).value) == job.sha
  }

  ghost predicate SaveBreaks(t: Tools, job: Job, e: Adversary, target: EditTarget) {
    TargetFound(t, job, e, target)
    && (Breaks(SaveAnswer(e, target)) || (EditSaved(t, job, e, target) && Breaks(ReopenAnswer(e, target))))
  }

  /** The archived original has changed by the end of the run. */
  ghost predicate LateDrift(t: Tools, job: Job, e: Adversary, target: EditTarget) {
    && Checked(t, job, e, target)
    && LastArchived(e, target).Some? && t.hash(LastArchived(e, target).value) != job.sha
  }

  ghost predicate EditDamaged(t: Tools, job: Job, e: Adversary, target: EditTarget) {
    && EditReopened(t, job, e, target)
    && (EditRead(t, e, target).Damaged? || (EditRead(t, e, target).Opened? && OutputRead(t, e, target).Damaged?))
  }

  lemma {:induction false} ReadEnds(t: Tools, job: Job, e: Adversary, target: EditTarget)
    requires EditReopened(t, job, e, target)
    ensures var r := ReadRun(t, job, e.disk(LastTurn(e, target)), DocOf(t, e), target);
            && !Is(r, NotApplicable) && !Is(r, ExpectedReject)
            && (Is(r, Pass) <==> PassRun(t, job, e, target))
            && (Is(r, ContractFailure) <==> VerifyFails(t, job, e, target))
            && (r == ManifestDrift <==> LateDrift(t, job, e, target))
            && r != Crashed(NotAnObject) && r != Crashed(UnboundParagraph)
            && (r == Crashed(MissingMember) <==>
                  BothRead(t, job, e, target) && DOCUMENT !in OutputRead(t, e, target).members)
            && (r == Crashed(DamagedMember) <==> EditDamaged(t, job, e, target))
  {
    hide EditReopened, EditExact, ReadPackage, LastTurn, DocOf;
  }

  lemma {:induction false} ReopenEnds(t: Tools, job: Job, e: Adversary, target: EditTarget)
    requires EditSaved(t, job, e, target)
    ensures var r := ReopenRun(t, job, e, DocOf(t, e), target, LastTurn(e, target));
            && (!Good(ReopenAnswer(e, target), {0}) ==>
                  && r != ManifestDrift && (r.Crashed? ==> r == Crashed(NotAnObject))
                  && (r.Finished? ==> r.row.category.None? || r.row.category == Some(ContractFailure)))
            && (Good(ReopenAnswer(e, target), {0}) ==> r == ReadRun(t, job, e.disk(LastTurn(e, target)), DocOf(t, e), target))
            && (Good(ReopenAnswer(e, target), {}) && !Good(ReopenAnswer(e, target), {0}) ==> Is(r, ContractFailure))
            && (Breaks(ReopenAnswer(e, target)) ==> r == Crashed(NotAnObject))
            && (Fails(ReopenAnswer(e, target)) ==> IsIncomplete(r))
            && OneOf(ReopenAnswer(e, target), {0})
  {
    hide EditSaved, Session, Gated, Need, IsTransportError, Succeeded, ReadRun, DocOf, LastTurn;
    var s := ReopenAnswer(e, target);
    GoodMeans(s, "edit-reopen", "edit-reopen");
    GoodAlso(s);
    IncompleteIs();
  }

  lemma {:induction false} SaveGates(t: Tools, job: Job, e: Adversary, target: EditTarget)
    requires TargetFound(t, job, e, target)
    ensures var c, s := Pages(e, target.query), SaveAnswer(e, target);
            var r := SaveRun(t, job, e, DocOf(t, e), target, c.pages, FoundOf(c.hits).handle);
            && (Fails(s) ==> IsIncomplete(r))
            && (Breaks(s) ==> r == Crashed(NotAnObject))
            && (Good(s, {}) && !Good(s, {1, 2}) ==> Is(r, ContractFailure))
            && (Good(s, {1, 2}) ==> r == ReopenRun(t, job, e, DocOf(t, e), target, LastTurn(e, target)))
    ensures OneOf(SaveAnswer(e, target), {1, 2})
  {
    hide Session, Gated, Need, IsTransportError, Succeeded, TargetFound, ReopenRun, DocOf, Pages, FoundOf;
    var s := SaveAnswer(e, target);
    GoodMeans(s, "edit-save", "edit-save");
    GoodAlso(s);
    IncompleteIs();
  }

  /** A session fails, breaks, or passes the gate, and only one of these. */
  ghost predicate OneOf(s: SessionEnd, must: set<nat>) {
    && (Good(s, must) ==> Good(s, {})) && (Good(s, {}) ==> !Fails(s) && !Breaks(s))
    && (Good(s, {}) || Fails(s) || Breaks(s)) && !(Fails(s) && Breaks(s))
  }

  lemma {:induction false} SaveEnds(t: Tools, job: Job, e: Adversary, target: EditTarget)
    requires TargetFound(t, job, e, target)
    ensures var c := Pages(e, target.query);
            var r := SaveRun(t, job, e, DocOf(t, e), target, c.pages, FoundOf(c.hits).handle);
            && !Is(r, NotApplicable) && !Is(r, ExpectedReject)
            && (Is(r, Pass) <==> PassRun(t, job, e, target))
            && (Is(r, ContractFailure) <==> SaveFails(t, job, e, target))
            && (r == ManifestDrift <==> LateDrift(t, job, e, target))
            && (r == Crashed(NotAnObject) <==> SaveBreaks(t, job, e, target))
            && (r == Crashed(MissingMember) <==>
                  BothRead(t, job, e, target) && DOCUMENT !in OutputRead(t, e, target).members)
            && (r == Crashed(DamagedMember) <==> EditDamaged(t, job, e, target))
            && r != Crashed(UnboundParagraph)
            && (Fails(SaveAnswer(e, target)) || (EditSaved(t, job, e, target) && Fails(ReopenAnswer(e, target))) ==> IsIncomplete(r))
  {
    hide Good, Fails, Breaks, SaveRun, ReopenRun, ReadRun, TargetFound, Verified, ReopenAnswer, EditRead, OutputRead, LastArchived,
         SaveAnswer, Pages, FoundOf, DocOf, LastTurn;
    SaveGates(t, job, e, target);
    if EditSaved(t, job, e, target) {
      ReopenEnds(t, job, e, target);
      if EditReopened(t, job, e, target) {
        ReadEnds(t, job, e, target);
      }
    }
  }

  /** No document opened for the edit, or not the one editable occurrence in the right paragraph. */
  ghost predicate FindFails(t: Tools, job: Job, e: Adversary, target: EditTarget) {
    || (Finding(t, job, e, target) && Good(FindAnswer(e), {}) && !Good(FindAnswer(e), {0}))
    || (FindAnswered(t, job, e, target) && Pages(e, target.query).ending.Over? && !TargetFound(t, job, e, target))
  }

  lemma {:induction false} FindEnds(t: Tools, job: Job, e: Adversary, target: EditTarget)
    requires Mapped(t, job, e) && Choice(t, e) == Selected(target)
    ensures var s := FindStage(job, e, target);
            && (s.GoesOn? <==> TargetFound(t, job, e, target))
            && (s.GoesOn? ==> s.value == Pages(e, target.query))
            && (s.Ends? ==>
                  var r := s.result;
                  && (r.Crashed? ==> r == Crashed(NotAnObject)) && r != ManifestDrift
                  && !Is(r, Pass) && !Is(r, ExpectedReject) && !Is(r, NotApplicable)
                  && (Is(r, ContractFailure) <==> FindFails(t, job, e, target))
                  && (r == Crashed(NotAnObject) <==> FindBreaks(t, job, e, target)))
    ensures Finding(t, job, e, target) && Fails(FindAnswer(e)) ==>
              FindStage(job, e, target).Ends? && IsIncomplete(FindStage(job, e, target).result)
    ensures FindAnswered(t, job, e, target) && Pages(e, target.query).ending.TransportLost? ==>
              FindStage(job, e, target).Ends? && IsIncomplete(FindStage(job, e, target).result)
  {
    hide Good, Fails, Breaks, Session, Gated, Need, IsTransportError, Succeeded, Mapped, FoundTarget, FoundOf, Collecting,
         FindServer, Choice, Incomplete;
    var s := FindAnswer(e);
    GoodMeans(s, "find-0", "find-0");
    GoodAlso(s);
    IncompleteIs();
  }

  /** The find session, a page of it, or a hit on a page is no object where one is read. */
  ghost predicate FindBreaks(t: Tools, job: Job, e: Adversary, target: EditTarget) {
    Finding(t, job, e, target)
    && (Breaks(FindAnswer(e)) || (FindAnswered(t, job, e, target) && Pages(e, target.query).ending.Raised?))
  }

  // ----- exactly when a run ends how -----

  ghost predicate Passes(t: Tools, job: Job, e: Adversary) {
    exists target :: PassRun(t, job, e, target)
  }

  ghost predicate Rejects(t: Tools, job: Job, e: Adversary) {
    (exists diag :: OpenReject(t, job, e, diag)) || (exists p :: ProbeReject(t, job, e, p))
  }

  /** Neither a safe target nor an unsupported probe, in the document the run has read. */
  ghost predicate NothingToTest(t: Tools, job: Job, e: Adversary) {
    Mapped(t, job, e) && Choice(t, e).Refused? && ProbeOf(t.lib, DocOf(t, e)).None?
  }

  ghost predicate BreaksContract(t: Tools, job: Job, e: Adversary) {
    || !job.pathOk || PristineFails(t, job, e)
    || (exists p :: ProbeWrote(t, job, e, p))
    || (exists target :: FindFails(t, job, e, target) || SaveFails(t, job, e, target))
  }

  /** The archived original was missing or changed before the first session, or changed once the edit had been read. */
  ghost predicate Drifts(t: Tools, job: Job, e: Adversary) {
    || (job.pathOk && (job.archived.None? || t.hash(job.archived.value) != job.sha))
    || (exists target :: LateDrift(t, job, e, target))
  }

  /** Something that is read as an object is none. */
  ghost predicate ReadsNoObject(t: Tools, job: Job, e: Adversary) {
    || (Prepared(t, job) && Breaks(FirstSession(e)))
    || (PristineSaved(t, job, e) && Breaks(SecondSession(e)))
    || (exists p :: ProbeBreaks(t, job, e, p))
    || (exists target :: FindBreaks(t, job, e, target) || SaveBreaks(t, job, e, target))
  }

  /** A package that is opened for its document holds none. */
  ghost predicate LacksDocument(t: Tools, job: Job, e: Adversary) {
    || ((exists diag :: NamedRefusal(t, job, e, diag)) && OpenedCopy(t, e).Opened? && DOCUMENT !in OpenedCopy(t, e).members)
    || (PristineGood(t, job, e) && DOCUMENT !in Source(t, e))
    || (exists target :: OutputLacksDocument(t, job, e, target))
  }

  ghost predicate OutputLacksDocument(t: Tools, job: Job, e: Adversary, target: EditTarget) {
    BothRead(t, job, e, target) && DOCUMENT !in OutputRead(t, e, target).members
  }

  ghost predicate ReadsDamaged(t: Tools, job: Job, e: Adversary) {
    PristineDamaged(t, job, e) || (exists target :: EditDamaged(t, job, e, target))
  }

  /** The probe's reply is no single successful match, so the engine's paragraph is read before it is assigned. */
  ghost predicate LeavesUnbound(t: Tools, job: Job, e: Adversary) {
    exists p :: UnboundAfter(t, job, e, p)
  }

  /** The end `r` comes exactly under the conditions for it. */
  ghost predicate Exactly(t: Tools, job: Job, e: Adversary, r: Result) {
    && (Is(r, Pass) <==> Passes(t, job, e))
    && (Is(r, ExpectedReject) <==> Rejects(t, job, e))
    && (Is(r, NotApplicable) <==> NothingToTest(t, job, e))
    && (Is(r, ContractFailure) <==> BreaksContract(t, job, e))
    && (r == ManifestDrift <==> Drifts(t, job, e))
    && (r == Crashed(NotAnObject) <==> ReadsNoObject(t, job, e))
    && (r == Crashed(MissingMember) <==> LacksDocument(t, job, e))
    && (r == Crashed(DamagedMember) <==> ReadsDamaged(t, job, e))
    && (r == Crashed(UnboundParagraph) <==> LeavesUnbound(t, job, e))
  }

  /** Without a prepared run nothing is asked and nothing read. */
  lemma {:induction false} NotPrepared(t: Tools, job: Job, e: Adversary)
    requires !Prepared(t, job)
    ensures Exactly(t, job, e, Outcome(t, job, e))
  {
    hide Good, Breaks, Session, PristineStage, TargetRun;
    NotMapped(t, job, e);
  }

  /** What lies behind the pristine lifecycle needs it to have gone through. */
  lemma {:induction false} NotMapped(t: Tools, job: Job, e: Adversary)
    requires !Mapped(t, job, e)
    ensures !Passes(t, job, e) && !NothingToTest(t, job, e) && !LeavesUnbound(t, job, e)
    ensures forall p :: !ProbeReject(t, job, e, p) && !ProbeWrote(t, job, e, p) && !ProbeBreaks(t, job, e, p)
    ensures forall target :: !FindFails(t, job, e, target) && !SaveFails(t, job, e, target)
    ensures forall target :: !FindBreaks(t, job, e, target) && !SaveBreaks(t, job, e, target)
    ensures forall target :: !LateDrift(t, job, e, target) && !OutputLacksDocument(t, job, e, target)
    ensures forall target :: !EditDamaged(t, job, e, target)
  {
    hide Good, Breaks, Session, Mapped, Verified, Pages, ProbeClean, Refuses, FoundTarget;
  }

  lemma {:induction false} PristineDecides(t: Tools, job: Job, e: Adversary)
    requires Prepared(t, job) && !Mapped(t, job, e)
    ensures Exactly(t, job, e, Outcome(t, job, e))
  {
    hide PristineStage, Good, Breaks, Session, PristineFails, PristineSaved, PristineDamaged, NamedRefusal, OpenReject,
         SelectionOf, ProbeRun, EditRun, ReadPackage, ProbeReject, ProbeWrote, FindFails, SaveFails, LateDrift, FindBreaks,
         SaveBreaks, ProbeBreaks, OutputLacksDocument, EditDamaged, Passes, NothingToTest, LeavesUnbound, OpenedCopy;
    NotMapped(t, job, e);
    PristineEnds(t, job, e);
    if PristineStage(t, job, e).GoesOn? {
      PristineOver(t, job, e);
    }
  }

  /** Once the pristine lifecycle went through, none of its own ends holds. */
  lemma {:induction false} PristineOver(t: Tools, job: Job, e: Adversary)
    requires PristineGood(t, job, e)
    ensures Prepared(t, job) && job.pathOk
    ensures !PristineFails(t, job, e) && !PristineDamaged(t, job, e)
    ensures !Breaks(FirstSession(e)) && !Breaks(SecondSession(e))
    ensures forall diag :: !NamedRefusal(t, job, e, diag) && !OpenReject(t, job, e, diag)
  {
    hide Session, Need, Succeeded, MemberShas, ReadPackage, OpenClean, Proves, NamedDiag;
  }

  /** The conditions on the probe hold of the one probe of the document or of none. */
  lemma {:induction false} OnlyProbe(t: Tools, job: Job, e: Adversary)
    ensures forall p :: Some(p) != ProbeOf(t.lib, DocOf(t, e)) ==>
              !ProbeReject(t, job, e, p) && !ProbeWrote(t, job, e, p) && !ProbeBreaks(t, job, e, p) && !UnboundAfter(t, job, e, p)
  {
    hide Good, Breaks, Session, Mapped, Choice, ProbeClean, Refuses, ProbeOf, DocOf;
  }

  lemma {:induction false} SameChoice(t: Tools, e: Adversary)
    requires DOCUMENT in Source(t, e)
    ensures DocOf(t, e) == Source(t, e)[DOCUMENT]
    ensures Choice(t, e) == SelectionOf(t.lib, Source(t, e)[DOCUMENT], t.others(Source(t, e)))
  {
    hide SelectionOf;
  }

  lemma {:induction false} OutcomeOfProbe(t: Tools, job: Job, e: Adversary)
    requires Mapped(t, job, e) && Choice(t, e).Refused?
    ensures Outcome(t, job, e) == ProbeRun(t, e, DocOf(t, e))
  {
    hide PristineStage, SelectionOf, EditRun, ProbeRun, MemberShas, Choice, DocOf, Good, Session, Staged, PristineFails,
         PristineDamaged, NamedRefusal, OpenReject, ReadPackage;
    PristineEnds(t, job, e);
    SameChoice(t, e);
  }

  lemma {:induction false} ProbeDecides(t: Tools, job: Job, e: Adversary)
    requires Mapped(t, job, e) && Choice(t, e).Refused?
    ensures Exactly(t, job, e, Outcome(t, job, e))
  {
    hide Outcome, Good, Breaks, Session, PristineFails, PristineSaved, PristineDamaged, NamedRefusal, OpenReject, ProbeSession,
         ProbeReject, ProbeWrote, ProbeBreaks, UnboundAfter, ProbeOf, PristineGood, Choice, Passes, FindFails, SaveFails, FindBreaks,
         SaveBreaks, LateDrift, OutputLacksDocument, EditDamaged, DocOf, OpenedCopy, Source, Probing, Probed, ProbeHeard;
    OutcomeOfProbe(t, job, e);
    PristineOver(t, job, e);
    NoFinding(t, job, e);
    OnlyProbe(t, job, e);
    var probe := ProbeOf(t.lib, DocOf(t, e));
    if probe.Some? {
      ProbingIs(t, job, e, probe.value);
      ProbeEnds(t, job, e, probe.value);
    }
  }

  lemma {:induction false} ProbingIs(t: Tools, job: Job, e: Adversary, p: ProbeTarget)
    requires Mapped(t, job, e) && Choice(t, e).Refused? && ProbeOf(t.lib, DocOf(t, e)) == Some(p)
    ensures Probing(t, job, e, p)
  {
    hide Mapped, Choice, ProbeOf, DocOf;
  }

  /** Without a safe target nothing of the edit happens. */
  lemma {:induction false} NoFinding(t: Tools, job: Job, e: Adversary)
    requires Choice(t, e).Refused?
    ensures !Passes(t, job, e)
    ensures forall target :: !FindFails(t, job, e, target) && !SaveFails(t, job, e, target)
    ensures forall target :: !FindBreaks(t, job, e, target) && !SaveBreaks(t, job, e, target)
    ensures forall target :: !LateDrift(t, job, e, target) && !OutputLacksDocument(t, job, e, target)
    ensures forall target :: !EditDamaged(t, job, e, target)
  {
    hide Good, Breaks, Session, Mapped, Verified, Pages, FoundTarget, Choice;
  }

  /** With a safe target nothing is probed. */
  lemma {:induction false} NoProbing(t: Tools, job: Job, e: Adversary)
    requires Choice(t, e).Selected?
    ensures !NothingToTest(t, job, e) && !LeavesUnbound(t, job, e)
    ensures forall p :: !ProbeReject(t, job, e, p) && !ProbeWrote(t, job, e, p) && !ProbeBreaks(t, job, e, p)
  {
    hide Good, Breaks, Session, Mapped, Choice, ProbeClean, Refuses;
  }

  /** The conditions on the edit hold of the chosen target or of none. */
  lemma {:induction false} OnlyTarget(t: Tools, job: Job, e: Adversary, target: EditTarget)
    requires Choice(t, e) == Selected(target)
    ensures Passes(t, job, e) <==> PassRun(t, job, e, target)
    ensures forall s :: s != target ==> !FindFails(t, job, e, s) && !SaveFails(t, job, e, s)
    ensures forall s :: s != target ==> !FindBreaks(t, job, e, s) && !SaveBreaks(t, job, e, s)
    ensures forall s :: s != target ==> !LateDrift(t, job, e, s) && !OutputLacksDocument(t, job, e, s)
    ensures forall s :: s != target ==> !EditDamaged(t, job, e, s)
  {
    hide Good, Breaks, Session, Mapped, Verified, Pages, FoundTarget, Choice;
  }

  /** Where the find does not succeed nothing is saved; where it does, it has not failed. */
  lemma {:induction false} FindOrSave(t: Tools, job: Job, e: Adversary, target: EditTarget)
    ensures !TargetFound(t, job, e, target) ==>
              && !PassRun(t, job, e, target) && !SaveFails(t, job, e, target) && !SaveBreaks(t, job, e, target)
              && !LateDrift(t, job, e, target) && !OutputLacksDocument(t, job, e, target) && !EditDamaged(t, job, e, target)
    ensures TargetFound(t, job, e, target) ==> !FindFails(t, job, e, target) && !FindBreaks(t, job, e, target)
  {
    hide Session, Verified, Need, Succeeded, FoundTarget, Collecting, Mapped, Choice, FindServer;
  }

  lemma {:induction false} EditRunIs(t: Tools, job: Job, e: Adversary, target: EditTarget)
    requires Mapped(t, job, e) && Choice(t, e) == Selected(target)
    ensures TargetFound(t, job, e, target) ==>
              var c := Pages(e, target.query);
              EditRun(t, job, e, DocOf(t, e), target) == SaveRun(t, job, e, DocOf(t, e), target, c.pages, FoundOf(c.hits).handle)
    ensures !TargetFound(t, job, e, target) ==>
              FindStage(job, e, target).Ends? && EditRun(t, job, e, DocOf(t, e), target) == FindStage(job, e, target).result
  {
    hide TargetFound, FindStage, SaveRun, Pages, FoundOf, Mapped, Choice, DocOf, FindFails, FindBreaks;
    FindEnds(t, job, e, target);
  }

  /** What the edit comes to, with the conditions of both of its parts. */
  lemma {:induction false} EditRunEnds(t: Tools, job: Job, e: Adversary, target: EditTarget)
    requires Mapped(t, job, e) && Choice(t, e) == Selected(target)
    ensures var r := EditRun(t, job, e, DocOf(t, e), target);
            && !Is(r, NotApplicable) && !Is(r, ExpectedReject) && r != Crashed(UnboundParagraph)
            && (Is(r, Pass) <==> PassRun(t, job, e, target))
            && (Is(r, ContractFailure) <==> FindFails(t, job, e, target) || SaveFails(t, job, e, target))
            && (r == ManifestDrift <==> LateDrift(t, job, e, target))
            && (r == Crashed(NotAnObject) <==> FindBreaks(t, job, e, target) || SaveBreaks(t, job, e, target))
            && (r == Crashed(MissingMember) <==> OutputLacksDocument(t, job, e, target))
            && (r == Crashed(DamagedMember) <==> EditDamaged(t, job, e, target))
  {
    hide TargetFound, FindStage, SaveRun, Pages, FoundOf, Mapped, Choice, DocOf, FindFails, FindBreaks, EditRun, PassRun, SaveFails,
         SaveBreaks, LateDrift, EditDamaged;
    FindOrSave(t, job, e, target);
    EditRunIs(t, job, e, target);
    FindEnds(t, job, e, target);
    if TargetFound(t, job, e, target) {
      SaveEnds(t, job, e, target);
    }
  }

  lemma {:induction false} OutcomeOfEdit(t: Tools, job: Job, e: Adversary, target: EditTarget)
    requires Mapped(t, job, e) && Choice(t, e) == Selected(target)
    ensures Outcome(t, job, e) == EditRun(t, job, e, DocOf(t, e), target)
  {
    hide PristineStage, SelectionOf, EditRun, ProbeRun, MemberShas, Choice, DocOf, Good, Session, Staged, PristineFails,
         PristineDamaged, NamedRefusal, OpenReject, ReadPackage;
    PristineEnds(t, job, e);
    SameChoice(t, e);
  }

  lemma {:induction false} EditDecides(t: Tools, job: Job, e: Adversary, target: EditTarget)
    requires Mapped(t, job, e) && Choice(t, e) == Selected(target)
    ensures Exactly(t, job, e, Outcome(t, job, e))
  {
    hide Outcome, EditRun, Good, Breaks, Session, PristineFails, PristineSaved, PristineDamaged, NamedRefusal, OpenReject,
         PristineGood, Choice, PassRun, FindFails, SaveFails, LateDrift, FindBreaks, SaveBreaks, ProbeReject, ProbeWrote,
         ProbeBreaks, NothingToTest, LeavesUnbound, Passes, EditDamaged, OutputLacksDocument, DocOf, OpenedCopy, Source;
    OutcomeOfEdit(t, job, e, target);
    PristineOver(t, job, e);
    NoProbing(t, job, e);
    OnlyTarget(t, job, e, target);
    EditRunEnds(t, job, e, target);
  }

  lemma {:induction false} Exhaustive(r: Result)
    ensures IsIncomplete(r) <==>
            && !Is(r, Pass) && !Is(r, ExpectedReject) && !Is(r, NotApplicable) && !Is(r, ContractFailure)
            && r != ManifestDrift && r != Crashed(NotAnObject) && r != Crashed(MissingMember)
            && r != Crashed(DamagedMember) && r != Crashed(UnboundParagraph)
  {
    if r.Crashed? {
      assert r.why.NotAnObject? || r.why.MissingMember? || r.why.DamagedMember? || r.why.UnboundParagraph?;
    } else if r.Finished? && r.row.category.Some? {
      var c := r.row.category.value;
      assert c.Pass? || c.ExpectedReject? || c.NotApplicable? || c.ContractFailure?;
    }
  }

  /**
   For every engine: PASS, EXPECTED_REJECT, NOT_APPLICABLE, CONTRACT_FAILURE, the stop on a drifted archive and each of
   the four exceptions come exactly under their conditions; INCOMPLETE, a row without a category, is all the rest.
   */
  lemma {:induction false} EndsExactly(t: Tools, job: Job, e: Adversary)
    ensures Exactly(t, job, e, Outcome(t, job, e))
    ensures var r := Outcome(t, job, e);
            && CompleteIffDecided(r)
            && (IsIncomplete(r) <==>
                  && !Passes(t, job, e) && !Rejects(t, job, e) && !NothingToTest(t, job, e) && !BreaksContract(t, job, e)
                  && !Drifts(t, job, e) && !ReadsNoObject(t, job, e) && !LacksDocument(t, job, e)
                  && !ReadsDamaged(t, job, e) && !LeavesUnbound(t, job, e))
  {
    hide Outcome, Mapped, Prepared, Choice, Passes, Rejects, NothingToTest, BreaksContract, Drifts, ReadsNoObject, LacksDocument,
         ReadsDamaged, LeavesUnbound;
    Exhaustive(Outcome(t, job, e));
    if !Prepared(t, job) {
      NotPrepared(t, job, e);
    } else if !Mapped(t, job, e) {
      PristineDecides(t, job, e);
    } else {
      match Choice(t, e) {
        case Refused(_) => ProbeDecides(t, job, e);
        case Selected(target) => EditDecides(t, job, e, target);
      }
    }
  }
}
