/** The stage a row is filed under, end by end. */
module StageLaws {
  import opened Sequences
  import opened Target
  import opened Probe
  import opened Engine
  import opened Paging
  import opened Packages
  import opened Verdict
  import opened VerdictLaws
  import opened VerdictMeaning

  /** A row with a category and its stage; and one without. */
  predicate Filed(r: Result, c: Category, stage: string) {
    r == Finished(Row(true, Some(c), stage))
  }

  predicate Unfiled(r: Result, stage: string) {
    r == Finished(Row(false, None, stage))
  }

  /** The entry's path is accepted, and the archived original still has its hash. */
  predicate Kept(t: Tools, job: Job) {
    job.pathOk && job.archived.Some? && t.hash(job.archived.value) == job.sha
  }

  /** The ends before the first session. */
  lemma {:induction false} EarlyStages(t: Tools, job: Job, e: Adversary)
    ensures var r := Outcome(t, job, e);
            && (!job.pathOk ==> Filed(r, ContractFailure, "resolve"))
            && (Kept(t, job) && !job.spaceBefore ==> Unfiled(r, "disk-precheck"))
            && (Kept(t, job) && job.spaceBefore && t.hash(job.staged) != job.sha ==> Unfiled(r, "stage-copy"))
  {
    hide PristineStage, TargetRun;
  }

  lemma {:induction false} PristineStages(t: Tools, job: Job, e: Adversary)
    requires Prepared(t, job)
    ensures var r, first, second := Outcome(t, job, e), FirstSession(e), SecondSession(e);
            && (Fails(first) ==> Unfiled(r, "pristine"))
            && (Good(first, {0}) && !Succeeded(first.envs[1]) ==> Filed(r, ContractFailure, "pristine-save"))
            && (PristineSaved(t, job, e) && Fails(second) ==> Unfiled(r, "pristine-reopen"))
            && (PristineSaved(t, job, e) && Good(second, {}) && !Succeeded(second.envs[0]) ==>
                  Filed(r, ContractFailure, "pristine-reopen"))
            && (PristineReopened(t, job, e) && (Staged(t, e).NoArchive? || (Staged(t, e).Opened? && Resaved(t, e).NoArchive?)) ==>
                  Unfiled(r, "pristine-reopen"))
            && (PristineReopened(t, job, e) && Staged(t, e).Opened? && Resaved(t, e).Opened?
                && MemberShas(t.hash, Staged(t, e).members) != MemberShas(t.hash, Resaved(t, e).members) ==>
                  Filed(r, ContractFailure, "pristine-verify"))
  {
    hide Session, Need, Succeeded, OpenFailure, MemberShas, ReadPackage, TargetRun, IsTransportError;
    NeedPasses(FirstSession(e), "pristine", "pristine");
    NeedPasses(SecondSession(e), "pristine-reopen", "pristine-reopen");
    GoodAlso(FirstSession(e));
    GoodAlso(SecondSession(e));
  }

  /** A refused open that is believed, and one that is not. */
  lemma {:induction false} OpenStages(t: Tools, job: Job, e: Adversary)
    requires OpenRefused(t, job, e)
    ensures var r := Outcome(t, job, e);
            && (PRISTINE !in e.disk(0).stage ==> Unfiled(r, "pristine"))
            && (Is(r, ExpectedReject) ==> Filed(r, ExpectedReject, "open"))
            && (PRISTINE in e.disk(0).stage && IsIncomplete(r) ==> Unfiled(r, "open"))
  {
    hide Session, Need, Succeeded, TargetRun, IsTransportError, Proves, NamedDiag, CleanSince;
    NeedPasses(FirstSession(e), "pristine", "pristine");
    GoodAlso(FirstSession(e));
  }

  /** The probe was answered and nothing written, but the answer is no refusal that can be believed. */
  ghost predicate ProbeDoubtful(t: Tools, job: Job, e: Adversary, p: ProbeTarget) {
    && ProbeHeard(t, job, e, p) && !Unbound(ProbeReply(e, p)) && ProbeClean(t, e.disk(1), e.disk(2))
    && !Refuses(ProbeReply(e, p), p)
  }

  /** The ends of a document without a safe target. */
  lemma {:induction false} ProbeStages(t: Tools, job: Job, e: Adversary)
    requires Mapped(t, job, e) && Choice(t, e).Refused?
    ensures var r := Outcome(t, job, e);
            match ProbeOf(t.lib, DocOf(t, e))
            case None => Filed(r, NotApplicable, "target")
            case Some(p) =>
              && (ProbeAnswer(e, p).Unavailable? ==> Unfiled(r, "pristine-reopen"))
              && (ProbeAnswer(e, p).Answered? && Fails(ProbeAnswer(e, p)) ==> Unfiled(r, "unsupported-probe"))
              && (Probed(t, job, e, p) && !ProbeRaises(ProbeReply(e, p)) && PRISTINE !in e.disk(2).stage ==>
                    Unfiled(r, "unsupported-probe"))
              && (ProbeReject(t, job, e, p) ==> Filed(r, ExpectedReject, "probe"))
              && (ProbeWrote(t, job, e, p) ==> Filed(r, ContractFailure, "probe"))
              && (ProbeDoubtful(t, job, e, p) ==> Unfiled(r, "probe"))
  {
    hide Session, Need, Mapped, Choice, ProbeOf, DocOf, Outcome, ProbeRaises, RefusalJustified, ProbeClean, IsTransportError;
    OutcomeOfProbe(t, job, e);
    if ProbeOf(t.lib, DocOf(t, e)).Some? {
      var p := ProbeOf(t.lib, DocOf(t, e)).value;
      NeedPasses(ProbeAnswer(e, p), "pristine-reopen", "unsupported-probe");
    }
  }

  /** The ends of the find. */
  lemma {:induction false} FindStages(t: Tools, job: Job, e: Adversary, target: EditTarget)
    requires Mapped(t, job, e) && Choice(t, e) == Selected(target)
    ensures var r, s := Outcome(t, job, e), FindAnswer(e);
            && (!job.spaceBeforeEdit ==> Unfiled(r, "disk-pre-edit"))
            && (job.spaceBeforeEdit && e.disk(1).archived.None? ==> Unfiled(r, "pristine-reopen"))
            && (Finding(t, job, e, target) && Fails(s) ==> Unfiled(r, "find-0"))
            && (Finding(t, job, e, target) && Good(s, {}) && !Good(s, {0}) ==> Filed(r, ContractFailure, "edit-open"))
            && (FindAnswered(t, job, e, target) && Pages(e, target.query).ending.TransportLost? ==> Unfiled(r, "find"))
            && (FindAnswered(t, job, e, target) && Pages(e, target.query).ending.Over? && !TargetFound(t, job, e, target) ==>
                  Filed(r, ContractFailure, "find"))
  {
    hide Session, Need, Mapped, Choice, DocOf, Outcome, SaveRun, Collecting, FindServer, FoundTarget, FoundOf, IsTransportError;
    OutcomeOfEdit(t, job, e, target);
    EditRunIs(t, job, e, target);
    NeedPasses(FindAnswer(e), "find-0", "find-0");
    GoodAlso(FindAnswer(e));
  }

  /** The ends of the edit. */
  lemma {:induction false} SaveStages(t: Tools, job: Job, e: Adversary, target: EditTarget)
    requires TargetFound(t, job, e, target)
    ensures var r, s := Outcome(t, job, e), SaveAnswer(e, target);
            && (Fails(s) ==> Unfiled(r, "edit-save"))
            && (Good(s, {}) && !Succeeded(s.envs[1]) ==> Filed(r, ContractFailure, "edit"))
            && (Good(s, {1}) && !Succeeded(s.envs[2]) ==> Filed(r, ContractFailure, "save"))
            && (EditSaved(t, job, e, target) && Fails(ReopenAnswer(e, target)) ==> Unfiled(r, "edit-reopen"))
            && (EditSaved(t, job, e, target) && Good(ReopenAnswer(e, target), {}) && !Succeeded(ReopenAnswer(e, target).envs[0]) ==>
                  Filed(r, ContractFailure, "reopen"))
  {
    hide Session, Need, Mapped, Choice, DocOf, Outcome, ReadRun, Pages, FoundTarget, FoundOf, IsTransportError, Succeeded, EditRun;
    FoundInEdit(t, job, e, target);
    OutcomeOfEdit(t, job, e, target);
    EditRunIs(t, job, e, target);
    NeedPasses(SaveAnswer(e, target), "edit-save", "edit-save");
    NeedPasses(ReopenAnswer(e, target), "edit-reopen", "edit-reopen");
  }

  lemma {:induction false} FoundInEdit(t: Tools, job: Job, e: Adversary, target: EditTarget)
    requires TargetFound(t, job, e, target)
    ensures Mapped(t, job, e) && Choice(t, e) == Selected(target)
  {
    hide Good, Mapped, Choice, Pages, FoundTarget, FoundOf;
  }

  /** The ends of the verification. */
  lemma {:induction false} VerifyStages(t: Tools, job: Job, e: Adversary, target: EditTarget)
    requires EditReopened(t, job, e, target)
    ensures var r := Outcome(t, job, e);
            && (EditRead(t, e, target).NoArchive? || (EditRead(t, e, target).Opened? && OutputRead(t, e, target).NoArchive?) ==>
                  Unfiled(r, "edit-reopen"))
            && (PassRun(t, job, e, target) ==> Filed(r, Pass, "done"))
            && (VerifyFails(t, job, e, target) ==> Filed(r, ContractFailure, "verify"))
            && (Checked(t, job, e, target) && LastArchived(e, target).None? ==>
                  Unfiled(r, if Verified(t, e, target) then "done" else "verify"))
  {
    hide Session, Need, Mapped, Choice, DocOf, Outcome, Pages, FoundOf, IsTransportError, Succeeded, EditRun, EditExact, SaveRun,
         EditReopened;
    InTheEdit(t, job, e, target);
    OutcomeOfEdit(t, job, e, target);
    EditRunIs(t, job, e, target);
    SavedIsRead(t, job, e, target);
  }
}
