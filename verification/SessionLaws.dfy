/** Which sessions a run holds, and that a single one of them that fails leaves the document without a category. */
module SessionLaws {
  import opened Sequences
  import opened Target
  import opened TargetFacts
  import opened Probe
  import opened Engine
  import opened Paging
  import opened Packages
  import opened Verdict
  import opened VerdictLaws

  /** A session: its turn, its request and the number of its calls. */
  datatype Asked = Asked(turn: nat, req: Request, calls: nat)

  function AnswerTo(e: Adversary, a: Asked): SessionEnd {
    Session(e, a.turn, a.req, a.calls)
  }

  /** A page request behind the first find reply. */
  ghost predicate AsksPage(e: Adversary, query: string, a: Asked) {
    && FindReply(e).Envelope? && FindReply(e).data.Some?
    && !HarvestRaises([], PageHits(FindReply(e).data.value.matches))
    && exists r :: r in FirstRequests(e, query, FindReply(e).data.value) && a == Asked(2 + r.0, FindPage(r.1), 2)
  }

  function FirstRequests(e: Adversary, query: string, first: Data): seq<(nat, int)> {
    Requests(FindServer(e), query, first, 1, Harvest([], PageHits(first.matches)))
  }

  /** The run holds this session. */
  ghost predicate Reaches(t: Tools, job: Job, e: Adversary, a: Asked) {
    || (Prepared(t, job) && a == Asked(0, PristineRun, 2))
    || (PristineSaved(t, job, e) && a == Asked(1, ReopenPristine, 2))
    || (exists p :: Probing(t, job, e, p) && a == Asked(2, ProbeFind(p.query), 2))
    || (exists target :: ReachesInEdit(t, job, e, target, a))
  }

  ghost predicate ReachesInEdit(t: Tools, job: Job, e: Adversary, target: EditTarget, a: Asked) {
    || (Finding(t, job, e, target) && a == Asked(2, FindPage(0), 2))
    || (FindAnswered(t, job, e, target) && AsksPage(e, target.query, a))
    || (&& TargetFound(t, job, e, target)
        && a == Asked(LastTurn(e, target) - 1,
                      EditAndSave(FoundOf(Pages(e, target.query).hits).handle, target.replacement), 3))
    || (EditSaved(t, job, e, target) && a == Asked(LastTurn(e, target), ReopenEdit, 2))
  }

  /** What one session decides. */
  ghost predicate Decides(r: Result, s: SessionEnd) {
    (Fails(s) ==> IsIncomplete(r)) && (Breaks(s) ==> r == Crashed(NotAnObject))
  }

  lemma {:induction false} EarlyEnd(t: Tools, job: Job, e: Adversary)
    requires Prepared(t, job) && PristineStage(t, job, e).Ends?
    ensures Outcome(t, job, e) == PristineStage(t, job, e).result
  {
    hide PristineStage, TargetRun;
  }

  lemma {:induction false} PristineSessions(t: Tools, job: Job, e: Adversary)
    requires Prepared(t, job)
    ensures Decides(Outcome(t, job, e), FirstSession(e))
    ensures PristineSaved(t, job, e) ==> Decides(Outcome(t, job, e), SecondSession(e))
  {
    hide PristineStage, Outcome, Good, Fails, Breaks, PristineFails, PristineDamaged, NamedRefusal, OpenReject, PristineGood,
         Session, Source, OpenedCopy, PristineSaved, Passes, Rejects, NothingToTest, BreaksContract, Drifts, LacksDocument,
         ReadsDamaged, LeavesUnbound, ProbeBreaks, FindBreaks, SaveBreaks;
    PristineEnds(t, job, e);
    if PristineStage(t, job, e).Ends? {
      EarlyEnd(t, job, e);
    }
    EndsExactly(t, job, e);
  }

  lemma {:induction false} ProbeSessions(t: Tools, job: Job, e: Adversary, p: ProbeTarget)
    requires Probing(t, job, e, p)
    ensures Decides(Outcome(t, job, e), ProbeAnswer(e, p))
  {
    hide Outcome, Good, Fails, Breaks, Session, Mapped, Choice, ProbeOf, DocOf, ProbeSession, ProbeReject, ProbeWrote,
         UnboundAfter, Probed, ProbeReply;
    OutcomeOfProbe(t, job, e);
    ProbeEnds(t, job, e, p);
  }

  lemma {:induction false} EditSessions(t: Tools, job: Job, e: Adversary, target: EditTarget, a: Asked)
    requires ReachesInEdit(t, job, e, target, a)
    ensures Decides(Outcome(t, job, e), AnswerTo(e, a))
  {
    hide Outcome, Good, Fails, Breaks, Session, Mapped, Choice, DocOf, EditRun, FindStage, SaveRun, PassRun, FindFails, SaveFails,
         LateDrift, OutputLacksDocument, EditDamaged, Pages, FoundOf, FoundTarget, AsksPage, BothRead;
    InEdit(t, job, e, target, a);
    OutcomeOfEdit(t, job, e, target);
    EditRunEnds(t, job, e, target);
    EditRunIs(t, job, e, target);
    FindEnds(t, job, e, target);
    if TargetFound(t, job, e, target) {
      SaveEnds(t, job, e, target);
    }
    if FindAnswered(t, job, e, target) && AsksPage(e, target.query, a) {
      PageSession(e, target.query, a);
    }
  }

  lemma {:induction false} InEdit(t: Tools, job: Job, e: Adversary, target: EditTarget, a: Asked)
    requires ReachesInEdit(t, job, e, target, a)
    ensures Mapped(t, job, e) && Choice(t, e) == Selected(target)
  {
    hide Good, Mapped, Choice, Pages, FoundTarget, AsksPage, FoundOf;
  }

  /** A page session that fails or breaks decides how paging ends. */
  lemma {:induction false} PageSession(e: Adversary, query: string, a: Asked)
    requires AsksPage(e, query, a)
    ensures Fails(AnswerTo(e, a)) ==> Pages(e, query).ending.TransportLost?
    ensures Breaks(AnswerTo(e, a)) ==> Pages(e, query).ending.Raised?
  {
    hide Session, Need, HarvestRaises, Harvest, PageHits, Requests, Collect, FindReply;
    var first := FindReply(e).data.value;
    var r :| r in FirstRequests(e, query, first) && a == Asked(2 + r.0, FindPage(r.1), 2);
    RequestDecides(FindServer(e), query, first, 1, Harvest([], PageHits(first.matches)), r);
  }

  /**
   For every engine and every session the run holds: a timeout, a missing reply or a transport error in it forces
   INCOMPLETE, and a reply that is no object ends the run without a row. So a category means that every session of the
   run was answered in full and without a transport error.
   */
  lemma {:induction false} FailureForcesIncomplete(t: Tools, job: Job, e: Adversary, a: Asked)
    requires Reaches(t, job, e, a)
    ensures Decides(Outcome(t, job, e), AnswerTo(e, a))
    ensures Outcome(t, job, e).Finished? && Outcome(t, job, e).row.category.Some? ==> Good(AnswerTo(e, a), {})
  {
    hide Outcome, Prepared, PristineSaved, Probing, ReachesInEdit, Need, Session;
    if Prepared(t, job) && (a == Asked(0, PristineRun, 2) || (PristineSaved(t, job, e) && a == Asked(1, ReopenPristine, 2))) {
      PristineSessions(t, job, e);
    } else if p :| Probing(t, job, e, p) && a == Asked(2, ProbeFind(p.query), 2) {
      ProbeSessions(t, job, e, p);
    } else if target :| ReachesInEdit(t, job, e, target, a) {
      EditSessions(t, job, e, target, a);
    } else {
      SavedIsPrepared(t, job, e);
      assert false;
    }
  }

  // ----- the same on the lines the engine printed -----

  /** The answer printed no `OK` without an object, and one clean line per call first; those in `must` say "success". */
  ghost predicate Sound(answer: Answer, calls: nat, must: set<nat>) {
    && answer.Lines? && OkNoObject !in answer.lines
    && var said := Spoken(answer.lines);
       && calls <= |said| && (forall k :: 0 <= k < calls ==> Clean(said[k]))
       && forall i :: i in must ==> i < calls && said[i].env.outcome == "success"
  }

  /** A session is good exactly when its answer is sound. */
  lemma {:induction false} GoodIsSound(e: Adversary, turn: nat, req: Request, calls: nat, must: set<nat>)
    ensures Good(Session(e, turn, req, calls), must) <==> Sound(e.answer(turn, req), calls, must)
    ensures Good(Session(e, turn, req, calls), must) ==>
              forall k :: 0 <= k < calls ==> Spoken(e.answer(turn, req).lines)[k] == OkLine(Session(e, turn, req, calls).envs[k])
  {
    hide Spoken, Need, ReplyAt, Clean;
    var s := Session(e, turn, req, calls);
    if s.Answered? {
      LinesDecide(e.answer(turn, req).lines, calls, s.envs);
    }
  }

  /** A line among the first ones that is no clean reply, behind clean ones: one that forces the session to fail. */
  ghost predicate FailsAt(lines: seq<Line>, calls: nat, k: nat) {
    var said := Spoken(lines);
    && OkNoObject !in lines && k < calls
    && (forall j :: 0 <= j < k && j < |said| ==> said[j] != OkLine(NoEnvelope))
    && (k >= |said| || said[k].ErrLine? || said[k].BadJson?)
  }

  lemma {:induction false} FailsThere(e: Adversary, a: Asked, lines: seq<Line>, k: nat)
    requires e.answer(a.turn, a.req) == Lines(lines) && FailsAt(lines, a.calls, k)
    ensures Fails(AnswerTo(e, a))
  {
    hide Spoken, Need, ReplyAt, Clean;
    var s, said := AnswerTo(e, a), Spoken(lines);
    LinesDecide(lines, a.calls, s.envs);
    if k < |said| {
      ErrorIsUnclean(lines, k);
    }
  }

  lemma {:induction false} ErrorIsUnclean(lines: seq<Line>, k: nat)
    requires k < |Spoken(lines)| && (Spoken(lines)[k].ErrLine? || Spoken(lines)[k].BadJson?)
    ensures !Clean(Spoken(lines)[k])
  {
    hide Spoken;
  }

  /**
   So in any session the run holds an `ERR` line, an `OK` line that is no JSON or a missing line forces INCOMPLETE,
   unless an `OK` line without an object comes in it or a reply that is no object comes before.
   */
  lemma {:induction false} ErrorLineForcesIncomplete(t: Tools, job: Job, e: Adversary, a: Asked, lines: seq<Line>, k: nat)
    requires Reaches(t, job, e, a) && e.answer(a.turn, a.req) == Lines(lines) && FailsAt(lines, a.calls, k)
    ensures IsIncomplete(Outcome(t, job, e))
  {
    hide Outcome, Reaches, Session, FailsAt, Need;
    FailureForcesIncomplete(t, job, e, a);
    FailsThere(e, a, lines, k);
  }

  /** And a category means that every session of the run printed one clean line per call. */
  lemma {:induction false} CategoryMeansSound(t: Tools, job: Job, e: Adversary, a: Asked)
    requires Reaches(t, job, e, a) && Outcome(t, job, e).Finished? && Outcome(t, job, e).row.category.Some?
    ensures Sound(e.answer(a.turn, a.req), a.calls, {})
  {
    hide Outcome, Reaches, Session, Need, Sound;
    FailureForcesIncomplete(t, job, e, a);
    GoodIsSound(e, a.turn, a.req, a.calls, {});
  }

  /** A page is what the second line of a sound session holds; without its data, or with no object for it, reading raises. */
  lemma {:induction false} PageByLines(e: Adversary, page: nat, offset: int)
    ensures var answer := e.answer(2 + page, FindPage(offset)); var reply := FindServer(e)(page, offset);
            && (reply.Page? <==> Sound(answer, 2, {}) && Spoken(answer.lines)[1].env.data.Some?)
            && (reply.Page? ==> Spoken(answer.lines)[1].env.data == Some(reply.data))
            && (reply.Lost? <==> Fails(Session(e, 2 + page, FindPage(offset), 2)))
  {
    hide Spoken, Need, ReplyAt, Clean;
    var s := Session(e, 2 + page, FindPage(offset), 2);
    GoodIsSound(e, 2 + page, FindPage(offset), 2, {});
    GoodMeans(s, "", "");
    assert Good(s, {}) ==> Spoken(e.answer(2 + page, FindPage(offset)).lines)[1] == OkLine(s.envs[1]);
  }

  lemma {:induction false} SavedIsPrepared(t: Tools, job: Job, e: Adversary)
    ensures PristineSaved(t, job, e) ==> Prepared(t, job)
  {
    hide Good, Prepared;
  }

  // ----- those sessions are all of them -----

  /** Another engine: the same files, and the same answer to every session the run holds. */
  ghost predicate SameSoFar(t: Tools, job: Job, e: Adversary, other: Adversary) {
    && other.disk == e.disk
    && forall a :: Reaches(t, job, e, a) ==> AnswerTo(other, a) == AnswerTo(e, a)
  }

  lemma {:induction false} SameSession(t: Tools, job: Job, e: Adversary, other: Adversary, a: Asked)
    requires SameSoFar(t, job, e, other) && Reaches(t, job, e, a)
    ensures Session(other, a.turn, a.req, a.calls) == Session(e, a.turn, a.req, a.calls)
  {
    hide Reaches, Session;
    assert AnswerTo(other, a) == AnswerTo(e, a);
  }

  lemma {:induction false} SamePristine(t: Tools, job: Job, e: Adversary, other: Adversary)
    requires SameSoFar(t, job, e, other) && Prepared(t, job)
    ensures PristineStage(t, job, other) == PristineStage(t, job, e)
  {
    hide Session, Need, OpenFailure, MemberShas, SameSoFar, Prepared, IsTransportError;
    SameSession(t, job, e, other, Asked(0, PristineRun, 2));
    NeedPasses(FirstSession(e), "pristine", "pristine");
    SameDisk(t, job, e, other);
    if PristineSaved(t, job, e) {
      SameSession(t, job, e, other, Asked(1, ReopenPristine, 2));
    }
  }

  lemma {:induction false} SameDisk(t: Tools, job: Job, e: Adversary, other: Adversary)
    requires SameSoFar(t, job, e, other)
    ensures other.disk == e.disk
  {}

  lemma {:induction false} SameProbe(t: Tools, job: Job, e: Adversary, other: Adversary, p: ProbeTarget)
    requires SameSoFar(t, job, e, other) && Probing(t, job, e, p)
    ensures ProbeSession(t, other, p) == ProbeSession(t, e, p)
  {
    hide Session, Need, SameSoFar, Probing, IsTransportError, ProbeClean, Refuses, ProbeRaises, Unbound;
    assert Reaches(t, job, e, Asked(2, ProbeFind(p.query), 2));
    SameSession(t, job, e, other, Asked(2, ProbeFind(p.query), 2));
    NeedPasses(ProbeAnswer(e, p), "pristine-reopen", "unsupported-probe");
    SameDisk(t, job, e, other);
  }

  lemma {:induction false} SameInEdit(t: Tools, job: Job, e: Adversary, other: Adversary, target: EditTarget, a: Asked)
    requires SameSoFar(t, job, e, other) && ReachesInEdit(t, job, e, target, a)
    ensures Session(other, a.turn, a.req, a.calls) == Session(e, a.turn, a.req, a.calls)
  {
    hide Session, SameSoFar, ReachesInEdit;
    SameSession(t, job, e, other, a);
  }

  lemma {:induction false} SamePages(t: Tools, job: Job, e: Adversary, other: Adversary, target: EditTarget)
    requires SameSoFar(t, job, e, other) && FindAnswered(t, job, e, target) && FindReply(e).data.Some?
    ensures Collecting(FindServer(other), target.query, FindReply(e).data.value)
         == Collecting(FindServer(e), target.query, FindReply(e).data.value)
  {
    hide Session, SameSoFar, FindAnswered, HarvestRaises, Harvest, PageHits, Requests, Collect, FindReply, PageOfSession;
    ReplyIs(t, job, e, target);
    var first := FindReply(e).data.value;
    if !HarvestRaises([], PageHits(first.matches)) {
      forall r | r in FirstRequests(e, target.query, first)
        ensures FindServer(other)(r.0, r.1) == FindServer(e)(r.0, r.1)
      {
        var a := Asked(2 + r.0, FindPage(r.1), 2);
        assert AsksPage(e, target.query, a);
        assert ReachesInEdit(t, job, e, target, a);
        SameInEdit(t, job, e, other, target, a);
      }
      OnlyRequestsMatter(FindServer(e), FindServer(other), target.query, first, 1, Harvest([], PageHits(first.matches)));
    }
  }

  lemma {:induction false} ReplyIs(t: Tools, job: Job, e: Adversary, target: EditTarget)
    requires FindAnswered(t, job, e, target)
    ensures FindReply(e).Envelope?
  {}

  lemma {:induction false} SameFind(t: Tools, job: Job, e: Adversary, other: Adversary, target: EditTarget)
    requires SameSoFar(t, job, e, other) && Mapped(t, job, e) && Choice(t, e) == Selected(target)
    ensures FindStage(job, other, target) == FindStage(job, e, target)
  {
    hide Session, SameSoFar, Mapped, Choice, Need, IsTransportError, Collecting, FoundTarget, FoundOf, FindServer;
    SameDisk(t, job, e, other);
    NeedPasses(FindAnswer(e), "find-0", "find-0");
    if Finding(t, job, e, target) {
      SameInEdit(t, job, e, other, target, Asked(2, FindPage(0), 2));
      if FindAnswered(t, job, e, target) && FindReply(e).data.Some? {
        SamePages(t, job, e, other, target);
      }
    }
  }

  lemma {:induction false} SameSave(t: Tools, job: Job, e: Adversary, other: Adversary, target: EditTarget)
    requires SameSoFar(t, job, e, other) && TargetFound(t, job, e, target)
    ensures var c := Pages(e, target.query);
            var docxml, handle := DocOf(t, e), FoundOf(c.hits).handle;
            SaveRun(t, job, other, docxml, target, c.pages, handle) == SaveRun(t, job, e, docxml, target, c.pages, handle)
  {
    hide Session, SameSoFar, TargetFound, Need, Succeeded, ReadRun, Pages, FoundOf, DocOf;
    SameDisk(t, job, e, other);
    var c := Pages(e, target.query);
    var save := Asked(2 + c.pages, EditAndSave(FoundOf(c.hits).handle, target.replacement), 3);
    assert ReachesInEdit(t, job, e, target, save);
    SameInEdit(t, job, e, other, target, save);
    GoodMeans(SaveAnswer(e, target), "edit-save", "edit-save");
    GoodAlso(SaveAnswer(e, target));
    if EditSaved(t, job, e, target) {
      SameInEdit(t, job, e, other, target, Asked(LastTurn(e, target), ReopenEdit, 2));
    }
  }

  /**
   The run holds no other session: an engine with the same files that answers every session of the run alike, whatever
   it would say to any other request, brings the same end.
   */
  lemma {:induction false} OnlyReachedMatter(t: Tools, job: Job, e: Adversary, other: Adversary)
    requires SameSoFar(t, job, e, other)
    ensures Outcome(t, job, other) == Outcome(t, job, e)
  {
    hide SameSoFar, PristineStage, TargetRun;
    if Prepared(t, job) {
      SamePristine(t, job, e, other);
      var s := PristineStage(t, job, e);
      if s.GoesOn? {
        GoesOnMeans(t, job, e);
        SameTarget(t, job, e, other);
      }
    }
  }

  lemma {:induction false} GoesOnMeans(t: Tools, job: Job, e: Adversary)
    requires Prepared(t, job) && PristineStage(t, job, e).GoesOn?
    ensures PristineGood(t, job, e) && PristineStage(t, job, e).value == Source(t, e)
  {
    hide PristineStage, PristineGood, Source, OpenReject, PristineFails, NamedRefusal, PristineDamaged;
    PristineEnds(t, job, e);
  }

  lemma {:induction false} SameTarget(t: Tools, job: Job, e: Adversary, other: Adversary)
    requires SameSoFar(t, job, e, other) && PristineGood(t, job, e)
    ensures TargetRun(t, job, other, Source(t, e)) == TargetRun(t, job, e, Source(t, e))
  {
    hide SameSoFar, PristineGood, SelectionOf, ProbeOf, ProbeSession, EditRun, Source, Choice, DocOf;
    if DOCUMENT in Source(t, e) {
      SameChoice(t, e);
      match Choice(t, e) {
        case Refused(_) =>
          var probe := ProbeOf(t.lib, DocOf(t, e));
          if probe.Some? {
            ProbingIs(t, job, e, probe.value);
            SameProbe(t, job, e, other, probe.value);
          }
        case Selected(target) => SameEdit(t, job, e, other, target);
      }
    }
  }

  lemma {:induction false} SameEdit(t: Tools, job: Job, e: Adversary, other: Adversary, target: EditTarget)
    requires SameSoFar(t, job, e, other) && Mapped(t, job, e) && Choice(t, e) == Selected(target)
    ensures EditRun(t, job, other, DocOf(t, e), target) == EditRun(t, job, e, DocOf(t, e), target)
  {
    hide SameSoFar, Mapped, Choice, FindStage, SaveRun, Pages, TargetFound, DocOf, FindFails, FindBreaks, FoundOf;
    SameFind(t, job, e, other, target);
    FindEnds(t, job, e, target);
    if TargetFound(t, job, e, target) {
      SameSave(t, job, e, other, target);
    }
  }
}
