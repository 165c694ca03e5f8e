/** The paragraph locator of real_docx_scan.py: one pass over the scanned tags with an explicit stack. */
module Locator {
  import opened Sequences
  import opened Scanner

  const BODY: seq<byte> := [98, 111, 100, 121]
  const PARA: seq<byte> := [112]
  const TBL: seq<byte> := [116, 98, 108]
  const SDT: seq<byte> := [115, 100, 116]

  /** A stack entry: a local name, or `sdt:<ordinal>` for a content control. */
  datatype Label = Named(name: seq<byte>) | Control(ordinal: nat)

  /** A located paragraph; `id` is k for `P{k}` and absent off the direct level, `end` is absent until assigned. */
  datatype Entry = Entry(id: Option<nat>, start: nat, openEnd: nat, table: Option<nat>, sdt: Option<nat>,
                         direct: bool, end: Option<nat>)

  /** `tables`, `sdts` and `direct` count what has been numbered so far. */
  datatype Work = Work(located: seq<Entry>, tables: nat, sdts: nat, direct: nat, openTables: seq<nat>)

  datatype State = State(stack: seq<Label>, bodyOpen: bool, bodyClosed: bool, work: Work)

  const START := State([], false, false, Work([], 0, 0, 0, []))

  function DropLast<T>(s: seq<T>): seq<T> {
    if s == [] then [] else s[..|s| - 1]
  }

  /** The innermost content control of the stack. */
  function LastControl(stack: seq<Label>): Option<nat> {
    if stack == [] then None
    else if stack[|stack| - 1].Control? then Some(stack[|stack| - 1].ordinal)
    else LastControl(stack[..|stack| - 1])
  }

  /** Where a tag stands, as far as the locator cares. */
  datatype Env = Env(direct: bool, inTable: bool, sdt: Option<nat>)

  function EnvOf(stack: seq<Label>): Env {
    Env(stack == [Named(BODY)], Named(TBL) in stack, LastControl(stack))
  }

  function AddParagraph(w: Work, env: Env, start: nat, openEnd: nat, selfClosing: bool): Work {
    var end := if selfClosing then Some(openEnd) else None;
    if env.direct then
      w.(located := w.located + [Entry(Some(w.direct), start, openEnd, None, None, true, end)], direct := w.direct + 1)
    else
      var table := if env.inTable && w.openTables != [] then Some(w.openTables[|w.openTables| - 1]) else None;
      w.(located := w.located + [Entry(None, start, openEnd, table, env.sdt, false, end)])
  }

  function CloseTag(st: State, t: Tag): State {
    var pops := st.stack != [] && (st.stack[|st.stack| - 1] == Named(t.name) || st.stack[|st.stack| - 1].Control?);
    var top := if pops then Some(st.stack[|st.stack| - 1]) else None;
    State(if pops then DropLast(st.stack) else st.stack, st.bodyOpen, st.bodyClosed || t.name == BODY,
          if top == Some(Named(TBL)) then st.work.(openTables := DropLast(st.work.openTables)) else st.work)
  }

  function OpenTag(st: State, t: Tag): State {
    var env := EnvOf(st.stack);
    if t.name == TBL && env.direct && !t.selfClosing then
      st.(stack := st.stack + [Named(TBL)],
          work := st.work.(tables := st.work.tables + 1, openTables := st.work.openTables + [st.work.tables]))
    else if t.name == SDT && !t.selfClosing then
      st.(stack := st.stack + [Control(st.work.sdts)], work := st.work.(sdts := st.work.sdts + 1))
    else if t.name == PARA then
      st.(stack := if t.selfClosing then st.stack else st.stack + [Named(PARA)],
          work := AddParagraph(st.work, env, t.start, t.end, t.selfClosing))
    else if !t.selfClosing then st.(stack := st.stack + [Named(t.name)])
    else st
  }

  function OnTag(st: State, t: Tag): State {
    if t.closing then CloseTag(st, t)
    else if t.name == BODY && !st.bodyOpen then st.(bodyOpen := true, stack := st.stack + [Named(BODY)])
    else if st.bodyOpen && !st.bodyClosed then OpenTag(st, t)
    else st
  }

  function Run(st: State, tags: seq<Tag>): State
    decreases |tags|
  {
    if tags == [] then st else Run(OnTag(st, tags[0]), tags[1..])
  }

  /** The ends of the closing `p` tags, in document order. */
  function ParaCloses(tags: seq<Tag>): seq<nat> {
    if tags == [] then []
    else (if tags[0].name == PARA && tags[0].closing then [tags[0].end] else []) + ParaCloses(tags[1..])
  }

  function ParaOpens(tags: seq<Tag>): nat {
    if tags == [] then 0
    else (if tags[0].name == PARA && !tags[0].closing && !tags[0].selfClosing then 1 else 0) + ParaOpens(tags[1..])
  }

  /** Gives the paragraphs still without an end the closing tags in order of appearance. */
  function Assign(located: seq<Entry>, closes: seq<nat>): Option<seq<Entry>> {
    if located == [] then Some([])
    else if located[0].end.Some? then
      var rest := Assign(located[1..], closes);
      if rest.None? then None else Some([located[0]] + rest.value)
    else if closes == [] then None
    else
      var rest := Assign(located[1..], closes[1..]);
      if rest.None? then None else Some([located[0].(end := Some(closes[0]))] + rest.value)
  }

  function Locate(tags: seq<Tag>): Option<seq<Entry>> {
    var closes := ParaCloses(tags);
    if ParaOpens(tags) != |closes| then None else Assign(Run(START, tags).work.located, closes)
  }

  lemma {:induction false} RunStep(st: State, tags: seq<Tag>, i: nat)
    requires i <= |tags|
    ensures Run(st, tags[i..]) == if i == |tags| then st else Run(OnTag(st, tags[i]), tags[i + 1..])
    ensures tags[0..] == tags
  {
    if i < |tags| {
      assert tags[i..][1..] == tags[i + 1..];
    }
  }

  /** `_locate_paragraphs`; `None` is the balance mismatch. */
  method LocateParagraphs(docxml: seq<byte>) returns (located: Option<seq<Entry>>)
    ensures located == Locate(Scan(docxml, 0))
  {
    hide Scan, Run, LastControl, ParaCloses, ParaOpens, Assign;
    var tags := ScanTags(docxml);
    var bodyOpen, bodyClosed := false, false;
    var stack: seq<Label> := [];
    var found: seq<Entry> := [];
    var tables, sdts, direct: nat := 0, 0, 0;
    var openTables: seq<nat> := [];
    RunStep(START, tags, 0);
    for i := 0 to |tags|
      invariant Run(State(stack, bodyOpen, bodyClosed, Work(found, tables, sdts, direct, openTables)), tags[i..])
             == Run(START, tags)
    {
      var tag := tags[i];
      ghost var before := State(stack, bodyOpen, bodyClosed, Work(found, tables, sdts, direct, openTables));
      if tag.closing {
        if stack != [] && (stack[|stack| - 1] == Named(tag.name) || stack[|stack| - 1].Control?) {
          var top := stack[|stack| - 1];
          stack := stack[..|stack| - 1];
          if top == Named(TBL) && openTables != [] {
            openTables := openTables[..|openTables| - 1];
          }
        }
        if tag.name == BODY {
          bodyClosed := true;
        }
      } else if tag.name == BODY && !bodyOpen {
        bodyOpen := true;
        stack := stack + [Named(BODY)];
      } else if bodyOpen && !bodyClosed {
        var isDirect := |stack| == 1 && stack[0] == Named(BODY);
        if tag.name == TBL && isDirect && !tag.selfClosing {
          openTables := openTables + [tables];
          tables := tables + 1;
          stack := stack + [Named(TBL)];
        } else if tag.name == SDT && !tag.selfClosing {
          stack := stack + [Control(sdts)];
          sdts := sdts + 1;
        } else if tag.name == PARA {
          var end := if tag.selfClosing then Some(tag.end) else None;
          if isDirect {
            found := found + [Entry(Some(direct), tag.start, tag.end, None, None, true, end)];
            direct := direct + 1;
          } else {
            var table := if Named(TBL) in stack && openTables != [] then Some(openTables[|openTables| - 1]) else None;
            found := found + [Entry(None, tag.start, tag.end, table, LastControl(stack), false, end)];
          }
          if !tag.selfClosing {
            stack := stack + [Named(PARA)];
          }
        } else if !tag.selfClosing {
          stack := stack + [Named(tag.name)];
        }
      }
      assert State(stack, bodyOpen, bodyClosed, Work(found, tables, sdts, direct, openTables)) == OnTag(before, tag);
      RunStep(before, tags, i);
    }
    RunStep(State(stack, bodyOpen, bodyClosed, Work(found, tables, sdts, direct, openTables)), tags, |tags|);
    var closes := ParaCloses(tags);
    if ParaOpens(tags) != |closes| {
      return None;
    }
    located := Assign(found, closes);
  }

  lemma {:induction false} RunConcat(st: State, a: seq<Tag>, b: seq<Tag>)
    ensures Run(st, a + b) == Run(Run(st, a), b)
    decreases |a|
  {
    if a == [] {
      assert a + b == b;
    } else {
      assert (a + b)[1..] == a[1..] + b;
      RunConcat(OnTag(st, a[0]), a[1..], b);
    }
  }

  lemma {:induction false} ClosesConcat(a: seq<Tag>, b: seq<Tag>)
    ensures ParaCloses(a + b) == ParaCloses(a) + ParaCloses(b)
    ensures ParaOpens(a + b) == ParaOpens(a) + ParaOpens(b)
    decreases |a|
  {
    if a == [] {
      assert a + b == b;
    } else {
      assert (a + b)[1..] == a[1..] + b;
      ClosesConcat(a[1..], b);
    }
  }
}
