/** `run_one`: the verdict on one document, against an engine that may answer and write anything. */
module Verdict {
  import opened Sequences
  import opened Scanner
  import opened Locator
  import opened LocatorResults
  import opened Queries
  import opened Target
  import opened TargetFacts
  import opened Probe
  import opened Engine
  import opened Paging
  import opened Packages

  datatype Category = Pass | ExpectedReject | NotApplicable | ContractFailure

  /** `category` absent is the source's null. */
  datatype Row = Row(complete: bool, category: Option<Category>, stage: string)

  datatype Request =
    | PristineRun | ReopenPristine | FindPage(offset: int) | EditAndSave(handle: string, replacement: string)
    | ReopenEdit | ProbeFind(query: string)

  datatype Answer = Lines(lines: seq<Line>) | TimedOut | Broken

  /** The files of the stage directory, and the archived original, after a turn. */
  datatype Disk = Disk(stage: Tree, archived: Option<seq<byte>>)

  /** The adversary: any answer to the n-th session, any files after it. */
  datatype Adversary = Adversary(answer: (nat, Request) -> Answer, disk: nat -> Disk)

  /** Reading a file's members: a package, no archive at all, or an archive with a member that cannot be unpacked. */
  datatype Unzipped = Opened(members: Package) | NoArchive | Damaged

  /** Libraries, a hash, the ZIP reader and the texts of the other parts, as arbitrary functions. */
  datatype Tools = Tools(lib: Library, hash: Digest, unzip: seq<byte> -> Unzipped, others: Package -> seq<string>)

  /** A manifest entry and what the harness finds before the first session. */
  datatype Job = Job(pathOk: bool, sha: string, archived: Option<seq<byte>>, staged: seq<byte>, spaceBefore: bool,
                     spaceBeforeEdit: bool)

  const PRISTINE: string := "pristine.docx"
  const PRISTINE_OUT: string := "pristine-out.docx"
  const EDIT: string := "edit.docx"
  const EDIT_OUT: string := "edit-out.docx"

  /**
   What escapes `run_one` besides the drift: JSON that is read as an object but is none, a package without
   `word/document.xml`, a member that cannot be unpacked, and the probe's paragraph read before it is assigned.
   */
  datatype CrashCause = NotAnObject | MissingMember | DamagedMember | UnboundParagraph

  /** A row, a stop of the whole scan, or an exception that leaves no row. */
  datatype Result = Finished(row: Row) | ManifestDrift | Crashed(why: CrashCause)

  function Incomplete(stage: string): Result {
    Finished(Row(false, None, stage))
  }

  function Decided(c: Category, stage: string): Result {
    Finished(Row(true, Some(c), stage))
  }

  predicate Is(r: Result, c: Category) {
    r.Finished? && r.row.category == Some(c)
  }

  /** INCOMPLETE, as the rows write it: no category. */
  predicate IsIncomplete(r: Result) {
    r.Finished? && r.row.category.None?
  }

  /** A row is complete exactly when it has a category. */
  predicate CompleteIffDecided(r: Result) {
    r.Finished? ==> (r.row.complete <==> r.row.category.Some?)
  }

  /** A part of the run: it ends the run, or the run goes on with what it has found. */
  datatype Stage<+T> = Ends(result: Result) | GoesOn(value: T) {
    predicate IsFailure() { Ends? }

    function PropagateFailure<U>(): Stage<U>
      requires Ends?
    {
      Ends(result)
    }

    function Extract(): T
      requires GoesOn?
    {
      value
    }
  }

  // ----- sessions -----

  /** The envelopes of a session; none when it timed out or broke; or the exception on an `OK` line without an object. */
  datatype SessionEnd = Answered(envs: seq<Envelope>) | Unavailable | Unread

  function Session(e: Adversary, turn: nat, req: Request, n: nat): (s: SessionEnd)
    ensures s.Answered? ==> |s.envs| == n
  {
    match e.answer(turn, req)
    case Lines(lines) =>
      if OkNoObject in lines then Unread else Answered(seq(n, k requires 0 <= k < n => ReplyAt(lines, k)))
    case TimedOut => Unavailable
    case Broken => Unavailable
  }

  method Ask(e: Adversary, turn: nat, req: Request, n: nat) returns (s: SessionEnd)
    ensures s == Session(e, turn, req, n)
  {
    match e.answer(turn, req) {
      case Lines(lines) =>
        var outs := McpSession(lines, n);
        if outs.None? {
          return Unread;
        }
        assert outs.value == seq(n, k requires 0 <= k < n => ReplyAt(lines, k));
        s := Answered(outs.value);
      case TimedOut => s := Unavailable;
      case Broken => s := Unavailable;
    }
  }

  /** The transport gate on a session, with the stage a timeout and a transport error are filed under. */
  function Gated(s: SessionEnd, late: string, failed: string): (g: Stage<seq<Envelope>>)
    ensures g.Ends? ==> CompleteIffDecided(g.result)
  {
    match s
    case Unavailable => Ends(Incomplete(late))
    case Unread => Ends(Crashed(NotAnObject))
    case Answered(envs) =>
      match Need(envs)
      case Passed => GoesOn(envs)
      case Failed => Ends(Incomplete(failed))
      case Raises => Ends(Crashed(NotAnObject))
  }

  // ----- files -----

  function ReadPackage(t: Tools, d: Disk, name: string): Unzipped {
    if name in d.stage then t.unzip(d.stage[name]) else NoArchive
  }

  function Opening(u: Unzipped, stage: string): (o: Stage<Package>)
    ensures o.Ends? ==> CompleteIffDecided(o.result)
  {
    match u
    case Opened(members) => GoesOn(members)
    case NoArchive => Ends(Incomplete(stage))
    case Damaged => Ends(Crashed(DamagedMember))
  }

  predicate CleanSince(t: Tools, before: Tree, after: Disk) {
    OnlyExpectedCreation(Snapshot(t.hash, before), Snapshot(t.hash, after.stage))
  }

  // ----- a refused open -----

  /** The flags of the paragraph a refusal names, or none when the name cannot be mapped. */
  function NamedFlags(t: Tools, docxml: seq<byte>, paragraph: string): Option<Flags> {
    var root := t.lib.parse(docxml);
    var located := Locate(Scan(docxml, 0));
    var paras := if root.Some? then Paragraphs(root.value) else [];
    var direct := if located.Some? then Directs(located.value) else [];
    var n := ParagraphNumber(paragraph);
    if n.Some? && |direct| == |paras| && root.Some? && n.value < |paras| then Some(ParagraphFlags(paras[n.value].kids))
    else None
  }

  /** The first diagnostic that names a paragraph. */
  function NamedDiag(diags: seq<Diag>): Option<Diag> {
    if diags == [] then None else if diags[0].paragraph != "" then Some(diags[0]) else NamedDiag(diags[1..])
  }

  /** The failed open has left the staged copy alone and written nothing but sidecars. */
  predicate OpenClean(t: Tools, job: Job, d: Disk) {
    && PRISTINE in d.stage && t.hash(d.stage[PRISTINE]) == job.sha
    && CleanSince(t, map[PRISTINE := job.staged], d) && PRISTINE_OUT !in d.stage
  }

  /** The flags of the named paragraph bear the code out. */
  predicate Proves(t: Tools, docxml: seq<byte>, diag: Diag) {
    var flags := NamedFlags(t, docxml, diag.paragraph);
    flags.Some? && flags.value.Any() && CodeMatches(diag.code, flags.value)
  }

  function OpenFailure(t: Tools, job: Job, d: Disk, refused: Envelope): (r: Result)
    requires refused.Envelope?
    ensures CompleteIffDecided(r)
  {
    var named := NamedDiag(refused.diags);
    if PRISTINE !in d.stage then Incomplete("pristine")
    else if !OpenClean(t, job, d) || IsTransportError(refused) || named.None? || named.value.code == "" then Incomplete("open")
    else
      match t.unzip(d.stage[PRISTINE])
      case NoArchive => Incomplete("open")
      case Damaged => Crashed(DamagedMember)
      case Opened(members) =>
        if DOCUMENT !in members then Crashed(MissingMember)
        else if Proves(t, members[DOCUMENT], named.value) then Decided(ExpectedReject, "open")
        else Incomplete("open")
  }

  /** `_classify_open_failure` */
  method ClassifyOpenFailure(t: Tools, job: Job, d: Disk, refused: Envelope) returns (r: Result)
    requires refused.Envelope?
    ensures r == OpenFailure(t, job, d, refused)
  {
    hide IsTransportError, Scan, Locate, Paragraphs, ParagraphFlags, OnlyExpectedCreation, NamedDiag, ParagraphNumber,
         CodeMatches, Directs;
    if PRISTINE !in d.stage {
      return Incomplete("pristine");
    }
    var clean := t.hash(d.stage[PRISTINE]) == job.sha
      && OnlyExpectedCreation(Snapshot(t.hash, map[PRISTINE := job.staged]), Snapshot(t.hash, d.stage))
      && PRISTINE_OUT !in d.stage;
    if !clean {
      return Incomplete("open");
    }
    if IsTransportError(refused) {
      return Incomplete("open");
    }
    var named := NamedDiag(refused.diags);
    if named.None? || named.value.code == "" {
      return Incomplete("open");
    }
    var package := t.unzip(d.stage[PRISTINE]);
    if package.NoArchive? {
      return Incomplete("open");
    }
    if package.Damaged? {
      return Crashed(DamagedMember);
    }
    if DOCUMENT !in package.members {
      return Crashed(MissingMember);
    }
    var docxml := package.members[DOCUMENT];
    var root := t.lib.parse(docxml);
    var located := LocateParagraphs(docxml);
    var paras := if root.Some? then Paragraphs(root.value) else [];
    var direct := if located.Some? then Directs(located.value) else [];
    var ordinal := if |direct| == |paras| then ParagraphNumber(named.value.paragraph) else None;
    var proved := false;
    if root.Some? && ordinal.Some? && ordinal.value < |paras| {
      var flags := ParagraphFlags(paras[ordinal.value].kids);
      proved := flags.Any() && CodeMatches(named.value.code, flags);
    }
    r := if proved then Decided(ExpectedReject, "open") else Incomplete("open");
  }

  // ----- the pristine lifecycle -----

  function PristineStage(t: Tools, job: Job, e: Adversary): (s: Stage<Package>)
    ensures s.Ends? ==> CompleteIffDecided(s.result)
  {
    var envs :- Gated(Session(e, 0, PristineRun, 2), "pristine", "pristine");
    NeedPasses(Session(e, 0, PristineRun, 2), "pristine", "pristine");
    if !Succeeded(envs[0]) then Ends(OpenFailure(t, job, e.disk(0), envs[0]))
    else if !Succeeded(envs[1]) then Ends(Decided(ContractFailure, "pristine-save"))
    else
      var again :- Gated(Session(e, 1, ReopenPristine, 2), "pristine-reopen", "pristine-reopen");
      if !Succeeded(again[0]) then Ends(Decided(ContractFailure, "pristine-reopen"))
      else
        var src :- Opening(ReadPackage(t, e.disk(1), PRISTINE), "pristine-reopen");
        var out :- Opening(ReadPackage(t, e.disk(1), PRISTINE_OUT), "pristine-reopen");
        if !ComparePackages(MemberShas(t.hash, src), MemberShas(t.hash, out)).same then
          Ends(Decided(ContractFailure, "pristine-verify"))
        else GoesOn(src)
  }

  /** Past the gate every envelope is an object without a transport error. */
  lemma {:induction false} NeedPasses(s: SessionEnd, late: string, failed: string)
    ensures Gated(s, late, failed).GoesOn? ==>
              s.Answered? && forall k :: 0 <= k < |s.envs| ==> s.envs[k].Envelope? && !IsTransportError(s.envs[k])
  {
    hide Need, IsTransportError;
    if s.Answered? {
      NeedMeans(s.envs);
    }
  }

  method PristineLifecycle(t: Tools, job: Job, e: Adversary) returns (r: Stage<Package>)
    ensures r == PristineStage(t, job, e)
  {
    hide OpenFailure, MemberShas, Session, Need;
    var first := Ask(e, 0, PristineRun, 2);
    NeedPasses(first, "pristine", "pristine");
    var envs :- Gated(first, "pristine", "pristine");
    if !Succeeded(envs[0]) {
      var refused := ClassifyOpenFailure(t, job, e.disk(0), envs[0]);
      return Ends(refused);
    }
    if !Succeeded(envs[1]) {
      return Ends(Decided(ContractFailure, "pristine-save"));
    }
    var second := Ask(e, 1, ReopenPristine, 2);
    var again :- Gated(second, "pristine-reopen", "pristine-reopen");
    if !Succeeded(again[0]) {
      return Ends(Decided(ContractFailure, "pristine-reopen"));
    }
    var src :- Opening(ReadPackage(t, e.disk(1), PRISTINE), "pristine-reopen");
    var out :- Opening(ReadPackage(t, e.disk(1), PRISTINE_OUT), "pristine-reopen");
    if !ComparePackages(MemberShas(t.hash, src), MemberShas(t.hash, out)).same {
      return Ends(Decided(ContractFailure, "pristine-verify"));
    }
    r := GoesOn(src);
  }

  // ----- no safe target: one unsupported probe -----

  /** Reading the one match's one occurrence raises. */
  predicate ProbeRaises(find: Envelope)
    requires find.Envelope?
  {
    find.data.None?
    || (&& Succeeded(find) && |find.data.value.matches| == 1 && |find.data.value.matches[0].occurrences| == 1
        && !find.data.value.matches[0].occurrences[0].shape.Readable?)
  }

  /** The reply leaves the engine's paragraph unassigned. */
  predicate Unbound(find: Envelope)
    requires find.Envelope? && find.data.Some?
  {
    !(Succeeded(find) && |find.data.value.matches| == 1)
  }

  /** One match with one occurrence that is not editable, for a reason the probe's own paragraph bears out. */
  predicate Refuses(find: Envelope, p: ProbeTarget)
    requires find.Envelope? && find.data.Some?
  {
    && !Unbound(find)
    && var m := find.data.value.matches[0];
       |m.occurrences| == 1 && !m.occurrences[0].editable && RefusalJustified(p, m.paragraph, m.occurrences[0].code)
  }

  /** The probe left the staged source and every other file as they were; only sidecars are new. */
  predicate ProbeClean(t: Tools, before: Disk, after: Disk) {
    && PRISTINE in before.stage && PRISTINE in after.stage
    && t.hash(after.stage[PRISTINE]) == t.hash(before.stage[PRISTINE])
    && CleanSince(t, before.stage, after)
  }

  function ProbeVerdict(t: Tools, e: Adversary, p: ProbeTarget, find: Envelope): (r: Result)
    requires find.Envelope?
    ensures CompleteIffDecided(r)
  {
    if ProbeRaises(find) then Crashed(NotAnObject)
    else if PRISTINE !in e.disk(2).stage then Incomplete("unsupported-probe")
    else if Unbound(find) then Crashed(UnboundParagraph)
    else if !ProbeClean(t, e.disk(1), e.disk(2)) then Decided(ContractFailure, "probe")
    else if Refuses(find, p) then Decided(ExpectedReject, "probe")
    else Incomplete("probe")
  }

  function ProbeSession(t: Tools, e: Adversary, p: ProbeTarget): (r: Result)
    ensures CompleteIffDecided(r)
  {
    var s := Session(e, 2, ProbeFind(p.query), 2);
    NeedPasses(s, "pristine-reopen", "unsupported-probe");
    match Gated(s, "pristine-reopen", "unsupported-probe")
    case Ends(r) => r
    case GoesOn(envs) => ProbeVerdict(t, e, p, envs[1])
  }

  function ProbeRun(t: Tools, e: Adversary, docxml: seq<byte>): (r: Result)
    ensures CompleteIffDecided(r)
  {
    match ProbeOf(t.lib, docxml)
    case None => Decided(NotApplicable, "target")
    case Some(p) => ProbeSession(t, e, p)
  }

  /** `_unsupported_or_na` */
  method UnsupportedOrNa(t: Tools, e: Adversary, docxml: seq<byte>) returns (r: Result)
    requires PRISTINE in e.disk(1).stage
    ensures r == ProbeRun(t, e, docxml)
  {
    hide IsTransportError, ProbeOf, OnlyExpectedCreation, CodeMatches, Session, Need, Snapshot;
    var probe := SelectUnsupported(t.lib, docxml);
    if probe.None? {
      return Decided(NotApplicable, "target");
    }
    var p := probe.value;
    var before := e.disk(1);
    var s := Ask(e, 2, ProbeFind(p.query), 2);
    NeedPasses(s, "pristine-reopen", "unsupported-probe");
    var gate := Gated(s, "pristine-reopen", "unsupported-probe");
    if gate.Ends? {
      return gate.result;
    }
    var find := gate.value[1];
    if find.data.None? {
      return Crashed(NotAnObject);
    }
    var matches := find.data.value.matches;
    var proved, bound := false, false;
    if Succeeded(find) && |matches| == 1 {
      var m := matches[0];
      bound := true;
      if |m.occurrences| == 1 {
        if !m.occurrences[0].shape.Readable? {
          return Crashed(NotAnObject);
        }
        if !m.occurrences[0].editable {
          proved := RefusalJustified(p, m.paragraph, m.occurrences[0].code);
        }
      }
    }
    var after := e.disk(2);
    if PRISTINE !in after.stage {
      return Incomplete("unsupported-probe");
    }
    var clean := t.hash(after.stage[PRISTINE]) == t.hash(before.stage[PRISTINE])
      && OnlyExpectedCreation(Snapshot(t.hash, before.stage), Snapshot(t.hash, after.stage));
    if !bound {
      return Crashed(UnboundParagraph);
    }
    if proved && clean {
      r := Decided(ExpectedReject, "probe");
    } else if !clean {
      r := Decided(ContractFailure, "probe");
    } else {
      r := Incomplete("probe");
    }
  }

  // ----- the edit lifecycle -----

  /** A find reply as the pager sees it. */
  function PageOfSession(s: SessionEnd): PageReply {
    match s
    case Unavailable => Lost
    case Unread => Raising
    case Answered(envs) =>
      match Need(envs)
      case Failed => Lost
      case Raises => Raising
      case Passed => if |envs| == 2 && envs[1].Envelope? && envs[1].data.Some? then Page(envs[1].data.value) else Raising
  }

  /** The find replies, page by page. */
  function FindServer(e: Adversary): Server {
    (page: nat, offset: int) => PageOfSession(Session(e, 2 + page, FindPage(offset), 2))
  }

  /** One occurrence, editable, in the target's paragraph. */
  predicate FoundTarget(found: Found, target: EditTarget) {
    found.occurrences == 1 && found.editable && SameParagraph(found.paragraph, target.paragraphId)
  }

  function FindStage(job: Job, e: Adversary, target: EditTarget): (s: Stage<Collected>)
    ensures s.Ends? ==> CompleteIffDecided(s.result)
  {
    if !job.spaceBeforeEdit then Ends(Incomplete("disk-pre-edit"))
    else if e.disk(1).archived.None? then Ends(Incomplete("pristine-reopen"))
    else
      var envs :- Gated(Session(e, 2, FindPage(0), 2), "find-0", "find-0");
      NeedPasses(Session(e, 2, FindPage(0), 2), "find-0", "find-0");
      if !Succeeded(envs[0]) then Ends(Decided(ContractFailure, "edit-open"))
      else if envs[1].data.None? then Ends(Crashed(NotAnObject))
      else
        var c := Collecting(FindServer(e), target.query, envs[1].data.value);
        match c.ending
        case Raised => Ends(Crashed(NotAnObject))
        case TransportLost => Ends(Incomplete("find"))
        case Over =>
          if FoundTarget(FoundOf(c.hits), target) then GoesOn(c) else Ends(Decided(ContractFailure, "find"))
  }

  /** Opening and finding, up to the one editable occurrence in the right paragraph. */
  method FindTarget(job: Job, e: Adversary, target: EditTarget) returns (r: Stage<Collected>)
    ensures r == FindStage(job, e, target)
  {
    hide IsTransportError, Collect, Harvest, SameParagraph, FindServer, Session, Need, HarvestRaises;
    if !job.spaceBeforeEdit {
      return Ends(Incomplete("disk-pre-edit"));
    }
    if e.disk(1).archived.None? {
      return Ends(Incomplete("pristine-reopen"));
    }
    var s := Ask(e, 2, FindPage(0), 2);
    NeedPasses(s, "find-0", "find-0");
    var envs :- Gated(s, "find-0", "find-0");
    if !Succeeded(envs[0]) {
      return Ends(Decided(ContractFailure, "edit-open"));
    }
    if envs[1].data.None? {
      return Ends(Crashed(NotAnObject));
    }
    var first := envs[1].data.value;
    var found, pages, ending := CollectSingle(FindServer(e), target.query, first);
    if ending.Raised? {
      return Ends(Crashed(NotAnObject));
    }
    if ending.TransportLost? {
      return Ends(Incomplete("find"));
    }
    if found.occurrences != 1 {
      return Ends(Decided(ContractFailure, "find"));
    }
    if !found.editable {
      return Ends(Decided(ContractFailure, "find"));
    }
    if !SameParagraph(found.paragraph, target.paragraphId) {
      return Ends(Decided(ContractFailure, "find"));
    }
    r := GoesOn(Collecting(FindServer(e), target.query, first));
  }

  function SaveRun(t: Tools, job: Job, e: Adversary,
                   docxml: seq<byte>, target: EditTarget, pages: nat, handle: string): (r: Result)
    ensures CompleteIffDecided(r)
  {
    match Gated(Session(e, 2 + pages, EditAndSave(handle, target.replacement), 3), "edit-save", "edit-save")
    case Ends(r) => r
    case GoesOn(envs) =>
      if !Succeeded(envs[1]) then Decided(ContractFailure, "edit")
      else if !Succeeded(envs[2]) then Decided(ContractFailure, "save")
      else ReopenRun(t, job, e, docxml, target, 3 + pages)
  }

  function ReopenRun(t: Tools, job: Job, e: Adversary, docxml: seq<byte>, target: EditTarget, turn: nat): (r: Result)
    ensures CompleteIffDecided(r)
  {
    match Gated(Session(e, turn, ReopenEdit, 2), "edit-reopen", "edit-reopen")
    case Ends(r) => r
    case GoesOn(again) =>
      if !Succeeded(again[0]) then Decided(ContractFailure, "reopen") else ReadRun(t, job, e.disk(turn), docxml, target)
  }

  function ReadRun(t: Tools, job: Job, d: Disk, docxml: seq<byte>, target: EditTarget): (r: Result)
    ensures CompleteIffDecided(r)
  {
    match Opening(ReadPackage(t, d, EDIT), "edit-reopen")
    case Ends(r) => r
    case GoesOn(from) =>
      match Opening(ReadPackage(t, d, EDIT_OUT), "edit-reopen")
      case Ends(r) => r
      case GoesOn(out) => if DOCUMENT !in out then Crashed(MissingMember) else CheckRun(t, job, d, docxml, target, from, out)
  }

  predicate EditExact(t: Tools, docxml: seq<byte>, target: EditTarget, from: Package, out: Package) {
    DOCUMENT in out
    && VerifyEdit(docxml, Some(out[DOCUMENT]), target.expected, MemberShas(t.hash, from), MemberShas(t.hash, out),
                  Utf8(target.query), Utf8(target.replacement)) == Exact
  }

  /** The verification, and the last look at the archived original. */
  function CheckRun(t: Tools, job: Job, d: Disk, docxml: seq<byte>, target: EditTarget, from: Package, out: Package): (r: Result)
    ensures CompleteIffDecided(r)
  {
    var exact := EditExact(t, docxml, target, from, out);
    if d.archived.None? then Incomplete(if exact then "done" else "verify")
    else if t.hash(d.archived.value) != job.sha then ManifestDrift
    else if exact then Decided(Pass, "done")
    else Decided(ContractFailure, "verify")
  }

  method EditSaveVerify(t: Tools, job: Job, e: Adversary, docxml: seq<byte>, target: EditTarget, pages: nat, handle: string)
    returns (r: Result)
    ensures r == SaveRun(t, job, e, docxml, target, pages, handle)
  {
    hide IsTransportError, MemberShas, VerifyEdit, Utf8, Session, Need, ReadPackage;
    var first := Ask(e, 2 + pages, EditAndSave(handle, target.replacement), 3);
    var saved := Gated(first, "edit-save", "edit-save");
    if saved.Ends? {
      return saved.result;
    }
    if !Succeeded(saved.value[1]) {
      return Decided(ContractFailure, "edit");
    }
    if !Succeeded(saved.value[2]) {
      return Decided(ContractFailure, "save");
    }
    var second := Ask(e, 3 + pages, ReopenEdit, 2);
    var reopened := Gated(second, "edit-reopen", "edit-reopen");
    if reopened.Ends? {
      return reopened.result;
    }
    if !Succeeded(reopened.value[0]) {
      return Decided(ContractFailure, "reopen");
    }
    var d := e.disk(3 + pages);
    var from := Opening(ReadPackage(t, d, EDIT), "edit-reopen");
    if from.Ends? {
      return from.result;
    }
    var out := Opening(ReadPackage(t, d, EDIT_OUT), "edit-reopen");
    if out.Ends? {
      return out.result;
    }
    if DOCUMENT !in out.value {
      return Crashed(MissingMember);
    }
    var check := VerifyEdit(docxml, Some(out.value[DOCUMENT]), target.expected, MemberShas(t.hash, from.value),
                            MemberShas(t.hash, out.value), Utf8(target.query), Utf8(target.replacement));
    if d.archived.None? {
      return Incomplete(if check == Exact then "done" else "verify");
    }
    if t.hash(d.archived.value) != job.sha {
      return ManifestDrift;
    }
    r := if check == Exact then Decided(Pass, "done") else Decided(ContractFailure, "verify");
  }

  // ----- run_one -----

  function EditRun(t: Tools, job: Job, e: Adversary, docxml: seq<byte>, target: EditTarget): (r: Result)
    ensures CompleteIffDecided(r)
  {
    match FindStage(job, e, target)
    case Ends(r) => r
    case GoesOn(c) => SaveRun(t, job, e, docxml, target, c.pages, FoundOf(c.hits).handle)
  }

  /** Everything after the pristine lifecycle. */
  ghost function TargetRun(t: Tools, job: Job, e: Adversary, src: Package): (r: Result)
    ensures CompleteIffDecided(r)
  {
    if DOCUMENT !in src then Crashed(MissingMember)
    else
      match SelectionOf(t.lib, src[DOCUMENT], t.others(src))
      case Refused(_) => ProbeRun(t, e, src[DOCUMENT])
      case Selected(target) => EditRun(t, job, e, src[DOCUMENT], target)
  }

  /** How the run on a document ends, for every engine. */
  ghost function Outcome(t: Tools, job: Job, e: Adversary): (r: Result)
    ensures CompleteIffDecided(r)
  {
    if !job.pathOk then Decided(ContractFailure, "resolve")
    else if job.archived.None? || t.hash(job.archived.value) != job.sha then ManifestDrift
    else if !job.spaceBefore then Incomplete("disk-precheck")
    else if t.hash(job.staged) != job.sha then Incomplete("stage-copy")
    else
      match PristineStage(t, job, e)
      case Ends(r) => r
      case GoesOn(src) => TargetRun(t, job, e, src)
  }

  /** `run_one` */
  method RunOne(t: Tools, job: Job, e: Adversary) returns (r: Result)
    ensures r == Outcome(t, job, e)
  {
    hide PristineStage, EditRun, ProbeRun, IsSelection;
    if !job.pathOk {
      return Decided(ContractFailure, "resolve");
    }
    if job.archived.None? || t.hash(job.archived.value) != job.sha {
      return ManifestDrift;
    }
    if !job.spaceBefore {
      return Incomplete("disk-precheck");
    }
    if t.hash(job.staged) != job.sha {
      return Incomplete("stage-copy");
    }
    var pristine := PristineLifecycle(t, job, e);
    if pristine.Ends? {
      return pristine.result;
    }
    var src := pristine.value;
    PristineRead(t, job, e);
    if DOCUMENT !in src {
      return Crashed(MissingMember);
    }
    var docxml := src[DOCUMENT];
    var s := SelectTarget(t.lib, docxml, t.others(src));
    SelectionIs(t.lib, docxml, t.others(src), s);
    if s.Refused? {
      r := UnsupportedOrNa(t, e, docxml);
      return;
    }
    r := EditLifecycle(t, job, e, docxml, s.target);
  }

  method EditLifecycle(t: Tools, job: Job, e: Adversary, docxml: seq<byte>, target: EditTarget) returns (r: Result)
    ensures r == EditRun(t, job, e, docxml, target)
  {
    hide SaveRun, FindStage;
    var found := FindTarget(job, e, target);
    if found.Ends? {
      return found.result;
    }
    r := EditSaveVerify(t, job, e, docxml, target, found.value.pages, FoundOf(found.value.hits).handle);
  }

  /** A pristine lifecycle that goes on has read its source from the staged copy. */
  lemma {:induction false} PristineRead(t: Tools, job: Job, e: Adversary)
    ensures var s := PristineStage(t, job, e);
            s.GoesOn? ==> ReadPackage(t, e.disk(1), PRISTINE) == Opened(s.value) && PRISTINE in e.disk(1).stage
  {
    hide OpenFailure, MemberShas, Session, Need, IsTransportError;
    NeedPasses(Session(e, 0, PristineRun, 2), "pristine", "pristine");
  }
}
