/** What the untrusted engine may answer, and how a session turns its output lines into one envelope per call. */
module Engine {
  import opened Sequences

  /** A diagnostic; an absent paragraph id is the empty string. */
  datatype Diag = Diag(code: string, paragraph: string)

  /** What reading an occurrence meets: all it needs, a verdict that is no object, or no object at all. */
  datatype Shape = Readable | NoVerdict | NoObject

  /** One reported occurrence with its verdict. */
  datatype Occurrence = Occurrence(handle: string, shape: Shape, editable: bool, code: string)

  /**
   A match entry; `own` is read when it lists no occurrences. An entry that is no object, or whose occurrences are no
   list, stands here as one with a single occurrence that is no object: reading either raises the same way.
   */
  datatype Match = Match(paragraph: string, occurrences: seq<Occurrence>, own: Occurrence)

  datatype NextCall = NextCall(query: Option<string>, offset: Option<int>)

  datatype Counts = Counts(complete: Option<bool>, offset: int, returned: int, total: Option<int>)

  datatype Data = Data(matches: seq<Match>, counts: Counts, next: Option<NextCall>)

  /** A reply; `data` is none when it is a value other than an object. `NoEnvelope` is a reply that is no object itself. */
  datatype Envelope = Envelope(outcome: string, diags: seq<Diag>, data: Option<Data>) | NoEnvelope

  const NO_DATA := Data([], Counts(None, 0, 0, None), None)
  const SUCCESS := "success"
  const TRANSPORT_ERROR := "transport-error"
  const TRANSPORT_CODES: set<string> := {"transport", "bad-json", "missing-reply"}

  /** `_is_transport_error`, on a reply that is an object. */
  predicate IsTransportError(e: Envelope) {
    e.Envelope? && (e.outcome == TRANSPORT_ERROR || exists i :: 0 <= i < |e.diags| && e.diags[i].code in TRANSPORT_CODES)
  }

  predicate Succeeded(e: Envelope) {
    e.Envelope? && e.outcome == SUCCESS
  }

  /**
   A stripped line of the engine's output: `OK <object>`, `OK <JSON that is no object>`, `OK <not json>`, `ERR...`,
   or anything else.
   */
  datatype Line = OkLine(env: Envelope) | OkNoObject | BadJson | ErrLine | Noise

  function Failure(code: string): Envelope {
    Envelope(TRANSPORT_ERROR, [Diag(code, "")], Some(NO_DATA))
  }

  /** The envelope a line stands for; noise is passed over, and JSON that is no object raises instead. */
  function Reply(line: Line): seq<Envelope> {
    match line
    case OkLine(env) => [env]
    case OkNoObject => []
    case BadJson => [Failure("bad-json")]
    case ErrLine => [Failure("transport")]
    case Noise => []
  }

  function Replies(lines: seq<Line>): seq<Envelope> {
    if lines == [] then [] else Reply(lines[0]) + Replies(lines[1..])
  }

  /** The k-th of the replies, or the error that stands for a missing one. */
  function ReplyAt(lines: seq<Line>, k: nat): Envelope {
    if k < |Replies(lines)| then Replies(lines)[k] else Failure("missing-reply")
  }

  /** The lines that say something, in order. */
  function Spoken(lines: seq<Line>): seq<Line> {
    if lines == [] then [] else (if lines[0].Noise? then [] else [lines[0]]) + Spoken(lines[1..])
  }

  /** An envelope that reports a transport error with the one code. */
  predicate Reports(env: Envelope, code: string) {
    env.Envelope? && env.outcome == "transport-error" && |env.diags| == 1 && env.diags[0].code == code
  }

  /** What a line that says something leads to: the object it holds, or an error of its kind. */
  predicate Answers(line: Line, env: Envelope) {
    match line
    case OkLine(reply) => env == reply
    case BadJson => Reports(env, "bad-json")
    case ErrLine => Reports(env, "transport")
    case OkNoObject => false
    case Noise => false
  }

  lemma {:induction false} RepliesAnswer(lines: seq<Line>)
    requires OkNoObject !in lines
    ensures |Replies(lines)| == |Spoken(lines)|
    ensures forall k :: 0 <= k < |Spoken(lines)| ==> Answers(Spoken(lines)[k], Replies(lines)[k])
  {
    if lines != [] {
      RepliesAnswer(lines[1..]);
    }
  }

  lemma {:induction false} ReplyAnswers(lines: seq<Line>, k: nat)
    requires OkNoObject !in lines
    ensures k < |Spoken(lines)| ==> Answers(Spoken(lines)[k], ReplyAt(lines, k))
    ensures k >= |Spoken(lines)| ==> Reports(ReplyAt(lines, k), "missing-reply")
  {
    hide Replies, Spoken, Answers;
    RepliesAnswer(lines);
  }

  /**
   `mcp_session`: one envelope per call, whatever the engine printed; none is the exception on `OK` without an object.
   The k-th is what the k-th line that says something leads to, or reports a missing reply.
   */
  method McpSession(lines: seq<Line>, calls: nat) returns (outs: Option<seq<Envelope>>)
    ensures outs.None? <==> OkNoObject in lines
    ensures outs.Some? ==> |outs.value| == calls && forall k :: 0 <= k < calls ==> outs.value[k] == ReplyAt(lines, k)
    ensures outs.Some? ==> forall k :: 0 <= k < calls ==>
              if k < |Spoken(lines)| then Answers(Spoken(lines)[k], outs.value[k]) else Reports(outs.value[k], "missing-reply")
  {
    hide Replies, Failure, Spoken, Answers, Reports;
    var got: seq<Envelope> := [];
    RepliesFrom(lines, 0);
    for i := 0 to |lines|
      invariant got + Replies(lines[i..]) == Replies(lines)
      invariant OkNoObject !in lines[..i]
    {
      RepliesFrom(lines, i);
      assert lines[..i + 1] == lines[..i] + [lines[i]];
      if lines[i].OkNoObject? {
        return None;
      }
      got := got + Reply(lines[i]);
    }
    RepliesFrom(lines, |lines|);
    assert lines[..|lines|] == lines;
    ghost var read := |got|;
    while |got| < calls
      invariant |got| >= read && read == |Replies(lines)|
      invariant |got| <= calls || |got| == read
      invariant forall k :: 0 <= k < |got| ==> got[k] == ReplyAt(lines, k)
    {
      got := got + [Failure("missing-reply")];
    }
    outs := Some(got[..calls]);
    forall k | 0 <= k < calls
      ensures if k < |Spoken(lines)| then Answers(Spoken(lines)[k], got[k]) else Reports(got[k], "missing-reply")
    {
      ReplyAnswers(lines, k);
    }
  }

  lemma {:induction false} RepliesFrom(lines: seq<Line>, i: nat)
    requires i <= |lines|
    ensures lines[0..] == lines
    ensures i == |lines| ==> Replies(lines[i..]) == []
    ensures i < |lines| ==> (Replies(lines[i..]) == Reply(lines[i]) + Replies(lines[i + 1..]))
  {
    if i < |lines| {
      assert lines[i..][1..] == lines[i + 1..];
    }
  }

  // ----- the transport gate -----

  datatype Gate = Passed | Failed | Raises

  /** The transport gate: the replies in order, up to the first transport error or the first that is no object. */
  function Need(envs: seq<Envelope>): Gate {
    if envs == [] then Passed
    else if envs[0].NoEnvelope? then Raises
    else if IsTransportError(envs[0]) then Failed
    else Need(envs[1..])
  }

  /** What the gate finds: clean only when every reply is an object without a transport error. */
  lemma {:induction false} NeedMeans(envs: seq<Envelope>)
    ensures Need(envs).Passed? <==> forall k :: 0 <= k < |envs| ==> envs[k].Envelope? && !IsTransportError(envs[k])
    ensures Need(envs).Failed? ==> exists k :: 0 <= k < |envs| && IsTransportError(envs[k])
    ensures Need(envs).Raises? ==> NoEnvelope in envs
  {
    hide IsTransportError;
    if envs != [] {
      NeedMeans(envs[1..]);
      assert envs == [envs[0]] + envs[1..];
    }
  }

  /** Fewer replies than calls, an error line or broken JSON never pass the gate. */
  lemma {:induction false} MissingIsError(lines: seq<Line>, calls: nat, outs: seq<Envelope>)
    requires |outs| == calls && forall k :: 0 <= k < calls ==> outs[k] == ReplyAt(lines, k)
    ensures Need(outs).Passed? <==>
            && calls <= |Replies(lines)|
            && forall k :: 0 <= k < calls ==> Replies(lines)[k].Envelope? && !IsTransportError(Replies(lines)[k])
  {
    hide Replies, IsTransportError, Need, Failure;
    NeedMeans(outs);
    if |Replies(lines)| < calls {
      var k := |Replies(lines)|;
      assert outs[k] == Failure("missing-reply");
      FailureIsError("missing-reply");
    } else {
      assert forall k :: 0 <= k < calls ==> outs[k] == Replies(lines)[k];
    }
  }

  lemma {:induction false} FailureIsError(code: string)
    ensures IsTransportError(Failure(code))
  {}

  // ----- the gate, told from the lines -----

  /** An `OK` line with an object that reports no transport error. */
  predicate Clean(line: Line) {
    && line.OkLine? && line.env.Envelope? && line.env.outcome != "transport-error"
    && forall i :: 0 <= i < |line.env.diags| ==>
         var code := line.env.diags[i].code; code != "transport" && code != "bad-json" && code != "missing-reply"
  }

  lemma {:induction false} CleanLine(line: Line, env: Envelope)
    requires Answers(line, env)
    ensures Clean(line) <==> env.Envelope? && !IsTransportError(env)
    ensures env.NoEnvelope? <==> line == OkLine(NoEnvelope)
    ensures Clean(line) ==> line == OkLine(env)
  {}

  lemma {:induction false} ReportIsError(env: Envelope, code: string)
    requires Reports(env, code) && (code == "transport" || code == "bad-json" || code == "missing-reply")
    ensures env.Envelope? && IsTransportError(env)
  {}

  /** The first of the envelopes that is not an object without a transport error, or their number. */
  function FirstStop(envs: seq<Envelope>): (n: nat)
    ensures n <= |envs| && forall j :: 0 <= j < n ==> envs[j].Envelope? && !IsTransportError(envs[j])
    ensures n < |envs| ==> envs[n].NoEnvelope? || IsTransportError(envs[n])
  {
    if envs == [] || envs[0].NoEnvelope? || IsTransportError(envs[0]) then 0 else 1 + FirstStop(envs[1..])
  }

  /** There the gate stops. */
  lemma {:induction false} NeedStops(envs: seq<Envelope>)
    ensures var n := FirstStop(envs);
            && (Need(envs).Passed? <==> n == |envs|) && (Need(envs).Raises? <==> n < |envs| && envs[n].NoEnvelope?)
  {
    hide IsTransportError;
    if envs != [] {
      NeedStops(envs[1..]);
    }
  }

  /**
   On the lines themselves: a session passes the gate if and only if the first lines that say something, one per call,
   are there and clean, and then the envelopes are the objects these lines hold; and it raises exactly when an `OK` line
   without an object for its reply comes first among them that are not clean.
   */
  lemma {:induction false} LinesDecide(lines: seq<Line>, calls: nat, outs: seq<Envelope>)
    requires OkNoObject !in lines && |outs| == calls && forall k :: 0 <= k < calls ==> outs[k] == ReplyAt(lines, k)
    ensures var said := Spoken(lines);
            && (Need(outs).Passed? <==> calls <= |said| && forall k :: 0 <= k < calls ==> Clean(said[k]))
            && (Need(outs).Passed? ==> forall k :: 0 <= k < calls ==> said[k] == OkLine(outs[k]))
            && (Need(outs).Raises? <==>
                  exists k :: 0 <= k < calls && k < |said| && said[k] == OkLine(NoEnvelope)
                              && forall j :: 0 <= j < k ==> Clean(said[j]))
  {
    hide Replies, IsTransportError, Need, Spoken, Answers, Reports, Clean, ReplyAt, FirstStop;
    var said, n := Spoken(lines), FirstStop(outs);
    NeedStops(outs);
    forall k | 0 <= k < calls
      ensures k < |said| ==> (Clean(said[k]) <==> outs[k].Envelope? && !IsTransportError(outs[k]))
      ensures k < |said| ==> (outs[k].NoEnvelope? <==> said[k] == OkLine(NoEnvelope))
      ensures k < |said| && Clean(said[k]) ==> said[k] == OkLine(outs[k])
      ensures k >= |said| ==> outs[k].Envelope? && IsTransportError(outs[k])
    {
      ReplyAnswers(lines, k);
      if k < |said| {
        CleanLine(said[k], outs[k]);
      } else {
        ReportIsError(outs[k], "missing-reply");
      }
    }
    if |said| < calls {
      assert IsTransportError(outs[|said|]);
    }
    assert n < calls && n < |said| ==> !Clean(said[n]);
    if n < calls && outs[n].NoEnvelope? {
      assert n < |said| && forall j :: 0 <= j < n ==> Clean(said[j]);
    }
  }

  /** Noise changes nothing. */
  lemma {:induction false} NoiseIsNothing(a: seq<Line>, b: seq<Line>, k: nat)
    requires Spoken(a) == Spoken(b) && OkNoObject !in a
    ensures OkNoObject !in b && ReplyAt(a, k) == ReplyAt(b, k)
  {
    hide Spoken;
    SpokenHas(a, OkNoObject);
    SpokenHas(b, OkNoObject);
    RepliesOfSpoken(a);
    RepliesOfSpoken(b);
  }

  lemma {:induction false} SpokenHas(lines: seq<Line>, line: Line)
    requires !line.Noise?
    ensures line in Spoken(lines) <==> line in lines
  {
    if lines != [] {
      SpokenHas(lines[1..], line);
      assert lines == [lines[0]] + lines[1..];
    }
  }

  lemma {:induction false} NoReply()
    ensures Reply(Noise) == []
  {}

  lemma {:induction false} RepliesOfSpoken(lines: seq<Line>)
    ensures Replies(lines) == Replies(Spoken(lines))
  {
    hide Reply;
    if lines != [] {
      RepliesOfSpoken(lines[1..]);
      if lines[0].Noise? {
        NoReply();
        assert lines[0] == Noise && Replies(lines) == [] + Replies(lines[1..]) == Replies(lines[1..]);
        assert Spoken(lines) == [] + Spoken(lines[1..]) == Spoken(lines[1..]);
      } else {
        assert Spoken(lines)[0] == lines[0] && Spoken(lines)[1..] == Spoken(lines[1..]);
      }
    }
  }
}
