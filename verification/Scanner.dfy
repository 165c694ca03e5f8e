/** The structural tag scan of real_docx_scan.py: byte offsets in, tag events with exact byte spans out. */
module Scanner {
  import opened Sequences

  const LT: byte := 60
  const GT: byte := 62
  const SLASH: byte := 47
  const BANG: byte := 33
  const COLON: byte := 58
  const DQUOTE: byte := 34
  const SQUOTE: byte := 39
  const COMMENT_OPEN: seq<byte> := [60, 33, 45, 45]
  const COMMENT_CLOSE: seq<byte> := [45, 45, 62]
  const CDATA_OPEN: seq<byte> := [60, 33, 91, 67, 68, 65, 84, 65, 91]
  const CDATA_CLOSE: seq<byte> := [93, 93, 62]
  const PI_OPEN: seq<byte> := [60, 63]
  const PI_CLOSE: seq<byte> := [63, 62]

  /** One scanned tag. `name` is the local name; `start` is its `<` and `end` the byte after its `>`. */
  datatype Tag = Tag(name: seq<byte>, closing: bool, selfClosing: bool, start: nat, end: nat)

  /** What `bytes.strip()` and `bytes.split(None)` treat as white space. */
  predicate Space(b: byte) {
    b == 32 || 9 <= b <= 13
  }

  predicate Quote(b: byte) {
    b == DQUOTE || b == SQUOTE
  }

  function LStrip(s: seq<byte>): seq<byte> {
    if s != [] && Space(s[0]) then LStrip(s[1..]) else s
  }

  function RStrip(s: seq<byte>): seq<byte> {
    if s != [] && Space(s[|s| - 1]) then RStrip(s[..|s| - 1]) else s
  }

  /** `s.split(None, 1)[0]` for a stripped `s`. */
  function FirstWord(s: seq<byte>): seq<byte> {
    if s == [] || Space(s[0]) then [] else [s[0]] + FirstWord(s[1..])
  }

  /** `s.split(":", 1)[-1]` */
  function Local(s: seq<byte>): seq<byte> {
    var c := Find(s, [COLON], 0);
    if c < 0 then s else s[c + 1..]
  }

  predicate Ascii(s: seq<byte>) {
    forall i :: 0 <= i < |s| ==> s[i] < 128
  }

  datatype Head = Head(local: seq<byte>, closing: bool, selfClosing: bool)

  /** What stands between `<` and `>`: a tag with an ASCII name, or something the scan passes over. */
  function ParseHead(raw: seq<byte>): Option<Head> {
    var closing := raw != [] && raw[0] == SLASH;
    var body := RStrip(LStrip(if closing then raw[1..] else raw));
    var selfClosing := !closing && body != [] && body[|body| - 1] == SLASH;
    var name := FirstWord(if selfClosing then RStrip(body[..|body| - 1]) else body);
    if name == [] || !Ascii(name) || name[0] == BANG then None
    else Some(Head(Local(name), closing, selfClosing))
  }

  /** The `>` that ends the tag: the first one outside quotes, or -1. `quote` is the open quote, if any. */
  function TagEnd(xml: seq<byte>, i: nat, quote: Option<byte>): (r: int)
    ensures r == -1 || (i <= r < |xml| && xml[r] == GT)
    decreases |xml| - i
  {
    if i >= |xml| then -1
    else if quote.Some? then TagEnd(xml, i + 1, if xml[i] == quote.value then None else quote)
    else if Quote(xml[i]) then TagEnd(xml, i + 1, Some(xml[i]))
    else if xml[i] == GT then i
    else TagEnd(xml, i + 1, None)
  }

  datatype Step = Stop | Skip(next: nat) | Emit(tag: Tag, next: nat)

  /** Past a comment, CDATA section or processing instruction that opens at `start`. */
  function PassOver(xml: seq<byte>, start: nat, open: seq<byte>, close: seq<byte>): Step {
    var end := Find(xml, close, start + |open|);
    if end < 0 then Stop else Skip(end + |close|)
  }

  function TagAt(xml: seq<byte>, start: nat): Step {
    var end := TagEnd(xml, start + 1, None);
    if end < 0 then Stop
    else
      var head := ParseHead(xml[start + 1..end]);
      if head.None? then Skip(end + 1)
      else Emit(Tag(head.value.local, head.value.closing, head.value.selfClosing, start, end + 1), end + 1)
  }

  /** One turn of the scan's outer loop; the position strictly grows. */
  function Next(xml: seq<byte>, pos: nat): (s: Step)
    ensures !s.Stop? ==> pos < s.next <= |xml|
  {
    var start := Find(xml, [LT], pos);
    if start < 0 then Stop
    else if At(xml, COMMENT_OPEN, start) then PassOver(xml, start, COMMENT_OPEN, COMMENT_CLOSE)
    else if At(xml, CDATA_OPEN, start) then PassOver(xml, start, CDATA_OPEN, CDATA_CLOSE)
    else if At(xml, PI_OPEN, start) then PassOver(xml, start, PI_OPEN, PI_CLOSE)
    else TagAt(xml, start)
  }

  function Scan(xml: seq<byte>, pos: nat): seq<Tag>
    decreases |xml| - pos
  {
    match Next(xml, pos)
    case Stop => []
    case Skip(next) => Scan(xml, next)
    case Emit(tag, next) => [tag] + Scan(xml, next)
  }

  lemma NextSpan(xml: seq<byte>, pos: nat)
    requires Next(xml, pos).Emit?
    ensures var t := Next(xml, pos).tag;
            pos <= t.start < t.end - 1 < |xml| && xml[t.start] == LT && xml[t.end - 1] == GT && t.end == Next(xml, pos).next
  {
    var start := Find(xml, [LT], pos);
    AtIndex(xml, [LT], start);
  }

  /** The tags lie one after the other from `pos` on, each from a `<` to just past a `>`. */
  ghost predicate InOrder(xml: seq<byte>, pos: nat, tags: seq<Tag>)
    decreases |tags|
  {
    tags == [] ||
    var t := tags[0];
    && pos <= t.start < t.end - 1 < |xml| && xml[t.start] == LT && xml[t.end - 1] == GT
    && InOrder(xml, t.end, tags[1..])
  }

  lemma InOrderFrom(xml: seq<byte>, pos: nat, next: nat, tags: seq<Tag>)
    requires InOrder(xml, next, tags) && pos <= next
    ensures InOrder(xml, pos, tags)
  {}

  lemma {:induction false} ScanOrdered(xml: seq<byte>, pos: nat)
    ensures InOrder(xml, pos, Scan(xml, pos))
    decreases |xml| - pos
  {
    match Next(xml, pos)
    case Stop =>
    case Skip(next) =>
      ScanOrdered(xml, next);
      InOrderFrom(xml, pos, next, Scan(xml, next));
    case Emit(tag, next) =>
      ScanOrdered(xml, next);
      NextSpan(xml, pos);
      assert ([tag] + Scan(xml, next))[1..] == Scan(xml, next);
  }

  /** `_scan_tags` */
  method ScanTags(xml: seq<byte>) returns (tags: seq<Tag>)
    ensures tags == Scan(xml, 0)
  {
    tags := [];
    var pos: nat := 0;
    while true
      invariant pos <= |xml|
      invariant tags + Scan(xml, pos) == Scan(xml, 0)
      decreases |xml| - pos
    {
      var step := ScanOne(xml, pos);
      if step.Stop? {
        break;
      }
      if step.Emit? {
        tags := tags + [step.tag];
      }
      pos := step.next;
    }
  }

  /** The body of the loop of `_scan_tags`: `break` is `Stop`, a `continue` without a tag is `Skip`. */
  method ScanOne(xml: seq<byte>, pos: nat) returns (step: Step)
    ensures step == Next(xml, pos)
  {
    var start := Find(xml, [LT], pos);
    if start < 0 {
      return Stop;
    }
    if At(xml, COMMENT_OPEN, start) {
      var end := Find(xml, COMMENT_CLOSE, start + 4);
      return if end < 0 then Stop else Skip(end + 3);
    }
    if At(xml, CDATA_OPEN, start) {
      var end := Find(xml, CDATA_CLOSE, start + 9);
      return if end < 0 then Stop else Skip(end + 3);
    }
    if At(xml, PI_OPEN, start) {
      var end := Find(xml, PI_CLOSE, start + 2);
      return if end < 0 then Stop else Skip(end + 2);
    }
    var end := FindTagEnd(xml, start);
    if end < 0 {
      return Stop;
    }
    var head := ParseHead(xml[start + 1..end]);
    return if head.None? then Skip(end + 1)
           else Emit(Tag(head.value.local, head.value.closing, head.value.selfClosing, start, end + 1), end + 1);
  }

  /** The cursor loop inside `_scan_tags`. */
  method FindTagEnd(xml: seq<byte>, start: nat) returns (end: int)
    requires start < |xml|
    ensures end == TagEnd(xml, start + 1, None)
  {
    var cursor := start + 1;
    var quote: Option<byte> := None;
    end := -1;
    while cursor < |xml|
      invariant start < cursor <= |xml|
      invariant TagEnd(xml, cursor, quote) == TagEnd(xml, start + 1, None)
    {
      var b := xml[cursor];
      if quote.Some? {
        if b == quote.value {
          quote := None;
        }
      } else if Quote(b) {
        quote := Some(b);
      } else if b == GT {
        end := cursor;
        break;
      }
      cursor := cursor + 1;
    }
  }
}
