/** The two readers of a typed view: its blocks by paragraph id, line by line. */
module TypedView {
  import opened Sequences
  import P = Probe
  import J = Passages

  type Blocks = map<string, string>

  const MARK: string := "<!--@p id=\""
  const PART: string := "<!--@part "
  const TYPED: string := "<!--@typed"
  const ID: string := "id=\""
  const QUOTE: string := "\""

  function Strip(s: string): string {
    P.StripText(s)
  }

  predicate Starts(s: string, prefix: string) {
    |prefix| <= |s| && s[..|prefix|] == prefix
  }

  /** The part of `s` before the first `cut`, or all of it. */
  function Before(s: string, cut: string): string {
    if Find(s, cut, 0) < 0 then s else s[..Find(s, cut, 0)]
  }

  /** `s.split('id="')[1].split('"')[0]` of a marker line. */
  function IdOf(s: string): string
    requires Starts(s, MARK)
  {
    Before(Before(s[|MARK|..], ID), QUOTE)
  }

  // ----- lines -----

  predicate Break(c: char) {
    '\n' <= c <= '\r' || '\U{1c}' <= c <= '\U{1e}' || c == '\U{85}' || c == '\U{2028}' || c == '\U{2029}'
  }

  function LineEnd(s: string): (n: nat)
    ensures n <= |s|
    ensures n < |s| ==> Break(s[n])
  {
    if s == [] || Break(s[0]) then 0 else 1 + LineEnd(s[1..])
  }

  /** `str.splitlines()` */
  function SplitLines(s: string): seq<string>
    decreases |s|
  {
    if s == [] then []
    else
      var n := LineEnd(s);
      if n == |s| then [s]
      else if s[n] == '\r' && n + 1 < |s| && s[n + 1] == '\n' then [s[..n]] + SplitLines(s[n + 2..])
      else [s[..n]] + SplitLines(s[n + 1..])
  }

  // ----- the two readers -----

  /** `typed_renderer_diff.paragraphs` asks whether there is a current id, `projection_audit` whether it is not empty. */
  datatype Reader = Renderer | Audit

  datatype State = State(out: Blocks, current: Option<string>, body: seq<string>)

  const START := State(map[], None, [])

  predicate Active(r: Reader, current: Option<string>) {
    current.Some? && (r == Audit ==> current.value != "")
  }

  function Flushed(r: Reader, s: State): Blocks {
    if s.current.Some? && Active(r, s.current) then s.out[s.current.value := Strip(J.JoinLines(s.body))] else s.out
  }

  function Step(r: Reader, s: State, line: string): State {
    var t := Strip(line);
    if Starts(t, MARK) then State(Flushed(r, s), Some(IdOf(t)), [])
    else if Starts(t, PART) || Starts(t, TYPED) then State(Flushed(r, s), None, [])
    else if Active(r, s.current) then s.(body := s.body + [line])
    else s
  }

  function Run(r: Reader, s: State, lines: seq<string>): State {
    if lines == [] then s else Step(r, Run(r, s, lines[..|lines| - 1]), lines[|lines| - 1])
  }

  function Read(r: Reader, lines: seq<string>): Blocks {
    Flushed(r, Run(r, START, lines))
  }

  /** `paragraphs` */
  method Paragraphs(md: string) returns (out: Blocks)
    ensures out == Read(Renderer, SplitLines(md))
  {
    hide SplitLines, Strip, IdOf, MARK, PART, TYPED, J.JoinLines, Starts;
    var lines := SplitLines(md);
    out := map[];
    var current: Option<string> := None;
    var body: seq<string> := [];
    for n := 0 to |lines|
      invariant Run(Renderer, START, lines[..n]) == State(out, current, body)
    {
      assert lines[..n + 1][..n] == lines[..n];
      var stripped := Strip(lines[n]);
      if Starts(stripped, MARK) {
        if current.Some? {
          out := out[current.value := Strip(J.JoinLines(body))];
        }
        current := Some(IdOf(stripped));
        body := [];
        continue;
      }
      if Starts(stripped, PART) || Starts(stripped, TYPED) {
        if current.Some? {
          out := out[current.value := Strip(J.JoinLines(body))];
        }
        current, body := None, [];
        continue;
      }
      if current.Some? {
        body := body + [lines[n]];
      }
    }
    assert lines[..|lines|] == lines;
    if current.Some? {
      out := out[current.value := Strip(J.JoinLines(body))];
    }
  }

  /** `blocks` */
  method AuditBlocks(text: string) returns (out: Blocks)
    ensures out == Read(Audit, SplitLines(text))
  {
    hide SplitLines, Strip, IdOf, MARK, PART, TYPED, J.JoinLines, Starts;
    var lines := SplitLines(text);
    out := map[];
    var current: Option<string> := None;
    var body: seq<string> := [];
    for n := 0 to |lines|
      invariant Run(Audit, START, lines[..n]) == State(out, current, body)
    {
      assert lines[..n + 1][..n] == lines[..n];
      var s := Strip(lines[n]);
      if Starts(s, MARK) {
        if current.Some? && current.value != "" {
          out := out[current.value := Strip(J.JoinLines(body))];
        }
        current := Some(IdOf(s));
        body := [];
        continue;
      }
      if Starts(s, PART) || Starts(s, TYPED) {
        if current.Some? && current.value != "" {
          out := out[current.value := Strip(J.JoinLines(body))];
        }
        current, body := None, [];
        continue;
      }
      if current.Some? && current.value != "" {
        body := body + [lines[n]];
      }
    }
    assert lines[..|lines|] == lines;
    if current.Some? && current.value != "" {
      out := out[current.value := Strip(J.JoinLines(body))];
    }
  }

  // ----- where the readers agree -----

  predicate EmptyMarker(line: string) {
    Starts(Strip(line), MARK) && IdOf(Strip(line)) == ""
  }

  /** The audit's state against the renderer's: the same, but that nothing is kept under the empty id. */
  ghost predicate Twin(a: State, b: State, seen: bool) {
    && b.out == a.out - {""} && b.current == a.current
    && (a.current != Some("") ==> b.body == a.body)
    && (seen <==> "" in a.out || a.current == Some(""))
  }

  lemma {:induction false} FlushTwin(a: State, b: State, seen: bool)
    requires Twin(a, b, seen)
    ensures Flushed(Audit, b) == Flushed(Renderer, a) - {""}
    ensures seen <==> "" in Flushed(Renderer, a)
  {
    hide Strip, J.JoinLines;
  }

  lemma {:induction false} StepTwin(a: State, b: State, seen: bool, line: string)
    requires Twin(a, b, seen)
    ensures Twin(Step(Renderer, a, line), Step(Audit, b, line), seen || EmptyMarker(line))
  {
    hide Strip, J.JoinLines, MARK, PART, TYPED, IdOf, Starts, Flushed;
    FlushTwin(a, b, seen);
  }

  lemma {:induction false} RunTwin(lines: seq<string>)
    ensures Twin(Run(Renderer, START, lines), Run(Audit, START, lines), exists i :: 0 <= i < |lines| && EmptyMarker(lines[i]))
  {
    hide Step, EmptyMarker;
    if lines != [] {
      var init, last := lines[..|lines| - 1], lines[|lines| - 1];
      RunTwin(init);
      var before := exists i :: 0 <= i < |init| && EmptyMarker(init[i]);
      var all := exists i :: 0 <= i < |lines| && EmptyMarker(lines[i]);
      StepTwin(Run(Renderer, START, init), Run(Audit, START, init), before, last);
      if before {
        var i :| 0 <= i < |init| && EmptyMarker(init[i]);
        assert EmptyMarker(lines[i]);
      }
      if all {
        var i :| 0 <= i < |lines| && EmptyMarker(lines[i]);
        assert i == |init| || EmptyMarker(init[i]);
      }
      assert all == (before || EmptyMarker(last));
    }
  }

  /**
   On every text: the audit reads what the renderer check reads, without the block of the empty id; and the two agree
   if and only if no marker line has an empty id.
   */
  lemma {:induction false} ReadersAgree(lines: seq<string>)
    ensures Read(Audit, lines) == Read(Renderer, lines) - {""}
    ensures Read(Audit, lines) == Read(Renderer, lines) <==> forall i :: 0 <= i < |lines| ==> !EmptyMarker(lines[i])
  {
    hide Run, EmptyMarker, Flushed;
    RunTwin(lines);
    var seen := exists i :: 0 <= i < |lines| && EmptyMarker(lines[i]);
    FlushTwin(Run(Renderer, START, lines), Run(Audit, START, lines), seen);
    var a := Read(Renderer, lines);
    if "" !in a {
      assert a - {""} == a;
    } else {
      assert "" !in a - {""};
    }
  }

  /** `<!--@p id=""-->` */
  const EMPTY_MARK: string := MARK + "\"-->"

  /** One such line: the renderer check keeps a block under the empty id, the audit keeps none. */
  lemma {:induction false} EmptyIdReadApart()
    ensures Read(Renderer, [EMPTY_MARK]) == map["" := ""] && Read(Audit, [EMPTY_MARK]) == map[]
  {
    var line := EMPTY_MARK;
    StripTrimmed(line);
    assert Starts(line, MARK) && line[|MARK|..] == "\"-->";
    NoFurtherId();
    assert [line][..0] == [];
    assert Run(Renderer, START, [line]) == State(map[], Some(""), []);
    assert Run(Audit, START, [line]) == State(map[], Some(""), []);
    assert J.JoinLines([]) == "" && Strip("") == "";
  }

  lemma {:induction false} NoFurtherId()
    ensures Before(Before("\"-->", ID), QUOTE) == ""
  {
    var s := "\"-->";
    forall j ensures !At(s, ID, j) {
      NotAt(s, ID, j, 0);
    }
    assert At(s, QUOTE, 0);
    FindIs(s, QUOTE, 0, 0);
  }

  // ----- printing, then reading -----

  /** A paragraph's block: its marker with the rest of the marker line, and its lines between blank ones. */
  datatype Block = Block(id: string, tail: string, lead: seq<string>, lines: seq<string>, trail: seq<string>)

  function Marker(b: Block): string {
    MARK + (b.id + (QUOTE + b.tail))
  }

  function Body(b: Block): string {
    J.JoinLines(b.lines)
  }

  function LinesOf(b: Block): seq<string> {
    [Marker(b)] + (b.lead + b.lines + b.trail)
  }

  function AllLines(blocks: seq<Block>): seq<string> {
    if blocks == [] then [] else AllLines(blocks[..|blocks| - 1]) + LinesOf(blocks[|blocks| - 1])
  }

  function Text(lines: seq<string>): string {
    if lines == [] then [] else lines[0] + ['\n'] + Text(lines[1..])
  }

  predicate AllBlank(s: string) {
    forall i :: 0 <= i < |s| ==> P.Blank(s[i])
  }

  predicate Trimmed(s: string) {
    s == [] || (!P.Blank(s[0]) && !P.Blank(s[|s| - 1]))
  }

  predicate OneLine(s: string) {
    forall i :: 0 <= i < |s| ==> !Break(s[i])
  }

  predicate MarksNothing(line: string) {
    var t := Strip(line);
    !Starts(t, MARK) && !Starts(t, PART) && !Starts(t, TYPED)
  }

  /** An id that can be read back: not empty, without a quote, and not ending in `id=`. */
  predicate ReadableId(id: string) {
    id != "" && Find(id, QUOTE, 0) < 0 && OneLine(id) && Find(id + QUOTE, ID, 0) < 0
  }

  predicate Printable(b: Block) {
    && ReadableId(b.id) && OneLine(b.tail) && Trimmed(QUOTE + b.tail)
    && (forall l :: l in b.lead + b.trail ==> AllBlank(l) && OneLine(l))
    && (forall l :: l in b.lines ==> OneLine(l) && MarksNothing(l))
    && Trimmed(Body(b))
  }

  // stripping

  lemma {:induction false} StripTrimmed(s: string)
    requires Trimmed(s)
    ensures Strip(s) == s
  {
    hide P.Blank;
  }

  lemma {:induction false} StripBlank(s: string)
    requires AllBlank(s)
    ensures Strip(s) == []
  {
    hide P.Blank;
    if s != [] {
      StripBlank(s[1..]);
    }
  }

  lemma {:induction false} StripAround(a: string, s: string, b: string)
    requires AllBlank(a) && AllBlank(b) && Trimmed(s)
    ensures Strip(a + s + b) == s
    decreases |a| + |b|
  {
    hide P.Blank;
    var w := a + s + b;
    if s == [] {
      assert AllBlank(w);
      StripBlank(w);
    } else if a != [] {
      assert w[1..] == a[1..] + s + b;
      StripAround(a[1..], s, b);
    } else if b != [] {
      assert w[0] == s[0];
      assert w[..|w| - 1] == a + s + b[..|b| - 1];
      StripAround(a, s, b[..|b| - 1]);
    } else {
      assert w == s;
      StripTrimmed(s);
    }
  }

  // joining

  lemma {:induction false} JoinNext(lines: seq<string>, line: string)
    requires lines != []
    ensures J.JoinLines(lines + [line]) == J.JoinLines(lines) + [J.NEWLINE] + line
  {
    assert (lines + [line])[..|lines|] == lines;
  }

  lemma {:induction false} JoinBlank(lines: seq<string>)
    requires forall l :: l in lines ==> AllBlank(l)
    ensures AllBlank(J.JoinLines(lines))
  {
    if lines != [] {
      JoinBlank(lines[..|lines| - 1]);
      assert AllBlank(lines[|lines| - 1]);
    }
  }

  /** Joining two lists of lines is joining each and putting a line break between them. */
  lemma {:induction false} JoinBoth(a: seq<string>, b: seq<string>)
    requires a != [] && b != []
    ensures J.JoinLines(a + b) == J.JoinLines(a) + ([J.NEWLINE] + J.JoinLines(b))
  {
    hide J.NEWLINE, J.JoinLines;
    var init, last := b[..|b| - 1], b[|b| - 1];
    assert b == init + [last];
    if init == [] {
      assert b == [last];
      JoinNext(a, last);
      JoinSingle(last);
      Regroup2(J.JoinLines(a), [J.NEWLINE], last);
    } else {
      assert a + b == (a + init) + [last];
      JoinBoth(a, init);
      JoinNext(a + init, last);
      JoinNext(init, last);
      Regroup(J.JoinLines(a), [J.NEWLINE], J.JoinLines(init), [J.NEWLINE], last);
    }
  }

  lemma {:induction false} JoinConcat(a: seq<string>, b: seq<string>)
    ensures J.JoinLines(a + b) ==
            if a == [] then J.JoinLines(b) else if b == [] then J.JoinLines(a)
            else J.JoinLines(a) + ([J.NEWLINE] + J.JoinLines(b))
  {
    hide J.NEWLINE, J.JoinLines;
    if a == [] {
      assert a + b == b;
    } else if b == [] {
      assert a + b == a;
    } else {
      JoinBoth(a, b);
    }
  }

  lemma {:induction false} Regroup2(a: string, b: string, c: string)
    ensures a + b + c == a + (b + c)
  {}

  lemma {:induction false} JoinSingle(line: string)
    ensures J.JoinLines([line]) == line
  {}

  lemma {:induction false} Regroup(a: string, b: string, c: string, d: string, e: string)
    ensures (a + (b + c)) + d + e == a + (b + (c + d + e))
  {}

  lemma {:induction false} StripPadded(lead: seq<string>, lines: seq<string>, trail: seq<string>)
    requires (forall l :: l in lead ==> AllBlank(l)) && (forall l :: l in trail ==> AllBlank(l))
    requires Trimmed(J.JoinLines(lines))
    ensures Strip(J.JoinLines(lead + lines + trail)) == J.JoinLines(lines)
  {
    hide Strip, AllBlank, J.JoinLines, J.NEWLINE, Trimmed;
    var body := J.JoinLines(lines);
    var a := if lead == [] then [] else J.JoinLines(lead) + [J.NEWLINE];
    var b := if trail == [] then [] else [J.NEWLINE] + J.JoinLines(trail);
    JoinConcat(lead + lines, trail);
    JoinConcat(lead, lines);
    JoinBlank(lead);
    JoinBlank(trail);
    BlankEnds(J.JoinLines(lead), J.JoinLines(trail));
    if lines == [] {
      assert lead + lines == lead;
      JoinOfNone();
      BlankJoin(lead, trail);
      StripBlank(J.JoinLines(lead + lines + trail));
    } else {
      assert J.JoinLines(lead + lines) == a + body;
      assert J.JoinLines(lead + lines + trail) == a + body + b;
      StripAround(a, body, b);
    }
  }

  lemma {:induction false} JoinOfNone()
    ensures J.JoinLines([]) == []
  {}

  lemma {:induction false} BlankJoin(lead: seq<string>, trail: seq<string>)
    requires (forall l :: l in lead ==> AllBlank(l)) && (forall l :: l in trail ==> AllBlank(l))
    ensures AllBlank(J.JoinLines(lead + trail))
  {
    hide AllBlank, J.JoinLines;
    JoinBlank(lead + trail);
  }

  lemma {:induction false} BlankEnds(a: string, b: string)
    requires AllBlank(a) && AllBlank(b)
    ensures AllBlank(a + [J.NEWLINE]) && AllBlank([J.NEWLINE] + b) && AllBlank([])
  {
    assert P.Blank(J.NEWLINE);
  }

  // the marker line

  lemma {:induction false} BeforeCut(id: string, cut: string, rest: string)
    requires cut != [] && Find(id + cut, cut, 0) == |id|
    ensures Before(id + cut + rest, cut) == id
  {
    hide Find;
    var s := id + cut + rest;
    forall i | 0 <= i <= |id| ensures At(s, cut, i) <==> At(id + cut, cut, i) {
      assert s[i..i + |cut|] == (id + cut)[i..i + |cut|];
    }
    FindIs(s, cut, 0, |id|);
  }

  lemma {:induction false} FirstQuote(id: string)
    requires Find(id, QUOTE, 0) < 0
    ensures Find(id + QUOTE, QUOTE, 0) == |id|
  {
    hide Find;
    var s := id + QUOTE;
    forall i | 0 <= i < |id| ensures !At(s, QUOTE, i) {
      assert s[i..i + 1] == id[i..i + 1];
      assert !At(id, QUOTE, i);
    }
    assert s[|id|..|id| + 1] == QUOTE;
    FindIs(s, QUOTE, 0, |id|);
  }

  /** No second `id="` starts before the quote that ends the id. */
  lemma {:induction false} NoEarlyCut(id: string, tail: string)
    requires Find(id + QUOTE, ID, 0) < 0
    ensures var s := id + QUOTE + tail; Find(s, ID, 0) < 0 || Find(s, ID, 0) > |id|
  {
    hide Find;
    var s := id + QUOTE + tail;
    forall i | 0 <= i <= |id| ensures !At(s, ID, i) {
      if i + 4 <= |id| + 1 {
        assert !At(id + QUOTE, ID, i);
        if i + 4 <= |s| {
          assert s[i..i + 4] == (id + QUOTE)[i..i + 4];
        }
      } else {
        assert s[i + (|id| - i)] == '"';
        NotAt(s, ID, i, |id| - i);
      }
    }
  }

  lemma {:induction false} IdRead(id: string, tail: string)
    requires Find(id, QUOTE, 0) < 0 && Find(id + QUOTE, ID, 0) < 0
    ensures Before(Before(id + QUOTE + tail, ID), QUOTE) == id
  {
    hide Find;
    var s := id + QUOTE + tail;
    NoEarlyCut(id, tail);
    FirstQuote(id);
    var f := Find(s, ID, 0);
    if f < 0 {
      BeforeCut(id, QUOTE, tail);
    } else {
      var rest := s[|id| + 1..f];
      assert s[..f] == id + QUOTE + rest;
      BeforeCut(id, QUOTE, rest);
    }
  }

  lemma {:induction false} MarkerRead(b: Block)
    requires Printable(b)
    ensures Strip(Marker(b)) == Marker(b) && Starts(Marker(b), MARK) && IdOf(Marker(b)) == b.id
  {
    hide Strip, Before, Find;
    var s := Marker(b);
    assert |MARK| == 11 && MARK[0] == '<';
    assert s[..|MARK|] == MARK;
    assert s[|MARK|..] == b.id + (QUOTE + b.tail) == b.id + QUOTE + b.tail;
    assert s[|s| - 1] == (QUOTE + b.tail)[|b.tail|];
    assert s[0] == '<';
    StripTrimmed(s);
    IdRead(b.id, b.tail);
  }

  // running over a printed view

  lemma {:induction false} RunConcat(r: Reader, s: State, a: seq<string>, b: seq<string>)
    ensures Run(r, s, a + b) == Run(r, Run(r, s, a), b)
  {
    hide Step;
    if b == [] {
      assert a + b == a;
    } else {
      var init, last := b[..|b| - 1], b[|b| - 1];
      RunConcat(r, s, a, init);
      assert (a + b)[..|a + b| - 1] == a + init && (a + b)[|a + b| - 1] == last;
    }
  }

  lemma {:induction false} RunBody(r: Reader, s: State, lines: seq<string>)
    requires Active(r, s.current) && forall l :: l in lines ==> MarksNothing(l)
    ensures Run(r, s, lines) == s.(body := s.body + lines)
  {
    hide Strip, Starts, MARK, PART, TYPED, Flushed;
    if lines != [] {
      var init, last := lines[..|lines| - 1], lines[|lines| - 1];
      assert lines == init + [last] && last in lines;
      assert MarksNothing(last);
      RunBody(r, s, init);
      assert s.body + init + [last] == s.body + lines;
    } else {
      assert s.body + lines == s.body;
    }
  }

  lemma {:induction false} BlankMarksNothing(line: string)
    requires AllBlank(line)
    ensures MarksNothing(line)
  {
    hide Strip;
    StripBlank(line);
    assert |MARK| == 11 && |PART| == 10 && |TYPED| == 10;
  }

  lemma {:induction false} RunBlock(r: Reader, s: State, b: Block)
    requires Printable(b)
    ensures Run(r, s, LinesOf(b)) == State(Flushed(r, s), Some(b.id), b.lead + b.lines + b.trail)
  {
    hide Strip, Starts, MARK, PART, TYPED, Flushed, IdOf, Marker, MarksNothing, OneLine, Trimmed, AllBlank, Find;
    MarkerRead(b);
    forall l | l in b.lead + b.lines + b.trail ensures MarksNothing(l) {
      if l in b.lead + b.trail {
        BlankMarksNothing(l);
      }
    }
    var t := State(Flushed(r, s), Some(b.id), []);
    assert Run(r, s, [Marker(b)]) == t by {
      assert [Marker(b)][..0] == [];
      assert Run(r, s, []) == s;
    }
    RunBody(r, t, b.lead + b.lines + b.trail);
    RunConcat(r, s, [Marker(b)], b.lead + b.lines + b.trail);
  }

  /** Each id with its body; of two blocks with one id the later one counts. */
  function Bodies(blocks: seq<Block>): Blocks {
    if blocks == [] then map[]
    else Bodies(blocks[..|blocks| - 1])[blocks[|blocks| - 1].id := Body(blocks[|blocks| - 1])]
  }

  lemma {:induction false} RunBlocks(r: Reader, blocks: seq<Block>)
    requires forall b :: b in blocks ==> Printable(b)
    ensures Flushed(r, Run(r, START, AllLines(blocks))) == Bodies(blocks)
  {
    hide Strip, Marker, Step, Body, J.JoinLines, LinesOf;
    if blocks != [] {
      var init, last := blocks[..|blocks| - 1], blocks[|blocks| - 1];
      RunBlocks(r, init);
      var before := Run(r, START, AllLines(init));
      RunConcat(r, START, AllLines(init), LinesOf(last));
      RunBlock(r, before, last);
      BodyBack(last);
    }
  }

  lemma {:induction false} BodyBack(b: Block)
    requires Printable(b)
    ensures Strip(J.JoinLines(b.lead + b.lines + b.trail)) == Body(b) && b.id != ""
  {
    hide Strip, J.JoinLines, AllBlank, Trimmed, OneLine, MarksNothing, Find;
    StripPadded(b.lead, b.lines, b.trail);
  }

  // the text

  lemma {:induction false} LineEndOf(l: string, rest: string)
    requires OneLine(l)
    ensures LineEnd(l + ['\n'] + rest) == |l|
  {
    if l == [] {
      assert (l + ['\n'] + rest)[0] == '\n';
    } else {
      assert (l + ['\n'] + rest)[1..] == l[1..] + ['\n'] + rest;
      LineEndOf(l[1..], rest);
    }
  }

  lemma {:induction false} SplitText(lines: seq<string>)
    requires forall l :: l in lines ==> OneLine(l)
    ensures SplitLines(Text(lines)) == lines
  {
    hide LineEnd, OneLine;
    if lines != [] {
      var rest := Text(lines[1..]);
      var s := lines[0] + ['\n'] + rest;
      SplitText(lines[1..]);
      LineEndOf(lines[0], rest);
      assert s[|lines[0]|] == '\n' && s[..|lines[0]|] == lines[0] && s[|lines[0]| + 1..] == rest;
      assert lines == [lines[0]] + lines[1..];
    }
  }

  lemma {:induction false} OneLines(b: Block)
    requires Printable(b)
    ensures forall l :: l in LinesOf(b) ==> OneLine(l)
  {
    hide Strip, Find, Trimmed, MarksNothing, AllBlank;
    var m := Marker(b);
    assert OneLine(MARK) && OneLine(QUOTE);
    assert OneLine(m);
    forall l | l in LinesOf(b) ensures OneLine(l) {
      if l != m {
        assert l in b.lead + b.trail || l in b.lines;
      }
    }
  }

  lemma {:induction false} AllOneLine(blocks: seq<Block>)
    requires forall b :: b in blocks ==> Printable(b)
    ensures forall l :: l in AllLines(blocks) ==> OneLine(l)
  {
    hide Printable, LinesOf, OneLine;
    if blocks != [] {
      AllOneLine(blocks[..|blocks| - 1]);
      OneLines(blocks[|blocks| - 1]);
    }
  }

  /** Both readers undo the printer: every block's body comes back under its id, whatever the layout around it. */
  lemma {:induction false} ReadingUndoesPrinting(r: Reader, blocks: seq<Block>)
    requires forall b :: b in blocks ==> Printable(b)
    ensures Read(r, SplitLines(Text(AllLines(blocks)))) == Bodies(blocks)
  {
    hide Printable, AllLines, Text, SplitLines, OneLine, Flushed, Bodies;
    AllOneLine(blocks);
    SplitText(AllLines(blocks));
    RunBlocks(r, blocks);
  }
}
