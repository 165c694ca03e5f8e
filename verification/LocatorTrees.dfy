/**
 What the locator's single pass computes, said on the tree of the elements whose tags the scan reports: inside `body`
 its stack is the path from `body` to the current place, and what it works on is the content of the first `body` up to
 the next closing tag of a `body`.
 */
module LocatorTrees {
  import opened Sequences
  import opened Scanner
  import opened Markup
  import opened Locator

  // ----- where the parts of a print lie -----

  function InnerAt(h: TagHead, off: nat): nat {
    off + |PrintOpen(h)|
  }

  function CloseAt(h: TagHead, kids: Forest, off: nat): nat {
    InnerAt(h, off) + |Print(kids)|
  }

  function EndAt(h: TagHead, kids: Forest, tail: seq<byte>, off: nat): nat {
    CloseAt(h, kids, off) + |PrintClose(h.name, tail)|
  }

  function EmptyEnd(h: TagHead, off: nat): nat {
    off + |PrintEmpty(h)|
  }

  function LeafEnd(l: Leaf, off: nat): nat {
    off + |PrintLeaf(l)|
  }

  // ----- the elements the scan sees -----

  /** Siblings with the spans of their tags: `Solo` is self-closing, `Box` has an opening and a closing tag. */
  datatype Shape =
    | Nil
    | Solo(name: seq<byte>, start: nat, end: nat, rest: Shape)
    | Box(name: seq<byte>, start: nat, inner: nat, kids: Shape, close: nat, end: nat, rest: Shape)

  function Append(a: Shape, b: Shape): Shape {
    match a
    case Nil => b
    case Solo(name, start, end, rest) => Solo(name, start, end, Append(rest, b))
    case Box(name, start, inner, kids, close, end, rest) => Box(name, start, inner, kids, close, end, Append(rest, b))
  }

  /** The scan reports the tags of an element only when its name is ASCII. */
  predicate Seen(h: TagHead) {
    Ascii(PrintName(h.name))
  }

  /** The seen elements of a forest; what an unseen one holds stands in its place. */
  function SeenIn(f: Forest, off: nat): Shape {
    match f
    case Done => Nil
    case LeafNode(l, rest) => SeenIn(rest, LeafEnd(l, off))
    case Empty(h, rest) =>
      var more := SeenIn(rest, EmptyEnd(h, off));
      if Seen(h) then Solo(h.name.local, off, EmptyEnd(h, off), more) else more
    case Elem(h, kids, tail, rest) =>
      var own, more := SeenIn(kids, InnerAt(h, off)), SeenIn(rest, EndAt(h, kids, tail, off));
      if Seen(h) then Box(h.name.local, off, InnerAt(h, off), own, CloseAt(h, kids, off), EndAt(h, kids, tail, off), more)
      else Append(own, more)
  }

  function Tags(s: Shape): seq<Tag> {
    match s
    case Nil => []
    case Solo(name, start, end, rest) => [Tag(name, false, true, start, end)] + Tags(rest)
    case Box(name, start, inner, kids, close, end, rest) =>
      [Tag(name, false, false, start, inner)] + Tags(kids) + [Tag(name, true, false, close, end)] + Tags(rest)
  }

  lemma {:induction false} TagsAppend(a: Shape, b: Shape)
    ensures Tags(Append(a, b)) == Tags(a) + Tags(b)
  {
    match a
    case Nil =>
    case Solo(_, _, _, rest) => TagsAppend(rest, b);
    case Box(_, _, _, _, _, _, rest) => TagsAppend(rest, b);
  }

  /** The tags of the seen elements are all that the scan reports. */
  lemma {:induction false} SeenTags(f: Forest, off: nat)
    ensures Events(f, off) == Tags(SeenIn(f, off))
    decreases f
  {
    hide PrintOpen, PrintEmpty, PrintClose, PrintLeaf, PrintName, Print;
    match f
    case Done =>
    case LeafNode(l, rest) => SeenTags(rest, LeafEnd(l, off));
    case Empty(h, rest) => SeenTags(rest, EmptyEnd(h, off));
    case Elem(h, kids, tail, rest) =>
      SeenTags(kids, InnerAt(h, off));
      SeenTags(rest, EndAt(h, kids, tail, off));
      TagsAppend(SeenIn(kids, InnerAt(h, off)), SeenIn(rest, EndAt(h, kids, tail, off)));
  }

  // ----- the pass as a recursion -----

  /** It hands the surroundings down instead of keeping a stack. */
  function Walk(s: Shape, env: Env, w: Work): Work {
    match s
    case Nil => w
    case Solo(name, start, end, rest) =>
      Walk(rest, env, if name == PARA then AddParagraph(w, env, start, end, true) else w)
    case Box(name, start, inner, kids, _, _, rest) =>
      Walk(rest, env, Leave(name, Walk(kids, Below(name, env, w), Enter(name, start, inner, env, w))))
  }

  function Below(name: seq<byte>, env: Env, w: Work): Env {
    Env(false, env.inTable || name == TBL, if name == SDT then Some(w.sdts) else env.sdt)
  }

  function Enter(name: seq<byte>, start: nat, inner: nat, env: Env, w: Work): Work {
    if name == TBL && env.direct then w.(tables := w.tables + 1, openTables := w.openTables + [w.tables])
    else if name == SDT then w.(sdts := w.sdts + 1)
    else if name == PARA then AddParagraph(w, env, start, inner, false)
    else w
  }

  function Leave(name: seq<byte>, w: Work): Work {
    if name == TBL then w.(openTables := DropLast(w.openTables)) else w
  }

  lemma {:induction false} WalkAppend(a: Shape, b: Shape, env: Env, w: Work)
    ensures Walk(Append(a, b), env, w) == Walk(b, env, Walk(a, env, w))
    decreases a
  {
    hide AddParagraph, Enter, Leave;
    match a
    case Nil =>
    case Solo(name, start, end, rest) =>
      WalkAppend(rest, b, env, if name == PARA then AddParagraph(w, env, start, end, true) else w);
    case Box(name, start, inner, kids, _, _, rest) =>
      WalkAppend(rest, b, env, Leave(name, Walk(kids, Below(name, env, w), Enter(name, start, inner, env, w))));
  }

  // ----- up to the first closing tag of a body -----

  /** A `body` closes somewhere in here. */
  predicate Cuts(s: Shape) {
    match s
    case Nil => false
    case Solo(_, _, _, rest) => Cuts(rest)
    case Box(name, _, _, kids, _, _, rest) => name == BODY || Cuts(kids) || Cuts(rest)
  }

  /** What opens before that closing tag. */
  function Until(s: Shape): Shape {
    match s
    case Nil => Nil
    case Solo(name, start, end, rest) => Solo(name, start, end, Until(rest))
    case Box(name, start, inner, kids, close, end, rest) =>
      Box(name, start, inner, Until(kids), close, end, if name == BODY || Cuts(kids) then Nil else Until(rest))
  }

  lemma {:induction false} UntilAll(s: Shape)
    requires !Cuts(s)
    ensures Until(s) == s
  {
    match s
    case Nil =>
    case Solo(_, _, _, rest) => UntilAll(rest);
    case Box(_, _, _, kids, _, _, rest) =>
      UntilAll(kids);
      UntilAll(rest);
  }

  // ----- the stack machine is the recursion -----

  function LabelOf(name: seq<byte>, w: Work): Label {
    if name == SDT then Control(w.sdts) else Named(name)
  }

  ghost predicate Inside(st: State) {
    st.bodyOpen && !st.bodyClosed && st.stack != []
  }

  lemma {:induction false} EnvPush(stack: seq<Label>, name: seq<byte>, w: Work)
    requires stack != []
    ensures EnvOf(stack + [LabelOf(name, w)]) == Below(name, EnvOf(stack), w)
  {
    var s := stack + [LabelOf(name, w)];
    assert s[..|s| - 1] == stack;
    assert s != [Named(BODY)] by { assert |s| > 1; }
    assert Named(TBL) in s <==> (Named(TBL) in stack || name == TBL);
  }

  lemma {:induction false} StepOpen(st: State, name: seq<byte>, start: nat, inner: nat)
    requires Inside(st)
    ensures OnTag(st, Tag(name, false, false, start, inner))
         == State(st.stack + [LabelOf(name, st.work)], true, false, Enter(name, start, inner, EnvOf(st.stack), st.work))
  {}

  lemma {:induction false} StepClose(st: State, lab: Label, name: seq<byte>, start: nat, end: nat)
    requires Inside(st) && (lab == Named(name) || (name == SDT && lab.Control?))
    ensures OnTag(State(st.stack + [lab], true, false, st.work), Tag(name, true, false, start, end))
         == State(st.stack, true, name == BODY, Leave(name, st.work))
  {
    var s := st.stack + [lab];
    assert s[..|s| - 1] == st.stack;
  }

  lemma {:induction false} StepSolo(st: State, name: seq<byte>, start: nat, end: nat)
    requires Inside(st)
    ensures OnTag(st, Tag(name, false, true, start, end)) ==
            State(st.stack, true, false,
                  if name == PARA then AddParagraph(st.work, EnvOf(st.stack), start, end, true) else st.work)
  {}

  lemma {:induction false} RunOne(st: State, t: Tag)
    ensures Run(st, [t]) == OnTag(st, t)
  {
    assert [t][1..] == [];
    assert Run(OnTag(st, t), []) == OnTag(st, t);
  }

  lemma {:induction false} RunSolo(st: State, name: seq<byte>, start: nat, end: nat, rest: Shape)
    ensures Run(st, Tags(Solo(name, start, end, rest))) == Run(OnTag(st, Tag(name, false, true, start, end)), Tags(rest))
  {
    hide OnTag, Run;
    RunConcat(st, [Tag(name, false, true, start, end)], Tags(rest));
    RunOne(st, Tag(name, false, true, start, end));
  }

  /** The tags of an element: its opening tag, those of its children, its closing tag, those of what follows. */
  lemma {:induction false} RunBox(st: State, s: Shape)
    requires s.Box?
    ensures Run(st, Tags(s)) ==
            Run(OnTag(Run(OnTag(st, Tag(s.name, false, false, s.start, s.inner)), Tags(s.kids)),
                      Tag(s.name, true, false, s.close, s.end)),
                Tags(s.rest))
  {
    hide OnTag, Run;
    var a, c := Tag(s.name, false, false, s.start, s.inner), Tag(s.name, true, false, s.close, s.end);
    RunConcat(st, [a] + Tags(s.kids) + [c], Tags(s.rest));
    RunConcat(st, [a] + Tags(s.kids), [c]);
    RunConcat(st, [a], Tags(s.kids));
    RunOne(st, a);
    RunOne(Run(OnTag(st, a), Tags(s.kids)), c);
  }

  /** Once a `body` has closed, nothing more is located. */
  lemma {:induction false} RunClosed(st: State, tags: seq<Tag>)
    requires st.bodyOpen && st.bodyClosed
    ensures var r := Run(st, tags); r.bodyOpen && r.bodyClosed && r.work.located == st.work.located
    decreases |tags|
  {
    if tags != [] {
      RunClosed(OnTag(st, tags[0]), tags[1..]);
    }
  }

  /** What a run inside `body` comes to: the work of the recursion, and the stack it began with unless a `body` closed. */
  ghost predicate WalksTo(st: State, s: Shape, r: State) {
    if Cuts(s) then
      r.bodyOpen && r.bodyClosed && r.work.located == Walk(Until(s), EnvOf(st.stack), st.work).located
    else r == State(st.stack, true, false, Walk(s, EnvOf(st.stack), st.work))
  }

  /**
   Inside `body` the stack machine does what the recursion does, up to the next closing tag of a `body`, and otherwise
   ends with the stack it began with: at every moment the stack is the path from `body` to the current place.
   */
  lemma {:induction false} RunIsWalk(s: Shape, st: State)
    requires Inside(st)
    ensures WalksTo(st, s, Run(st, Tags(s)))
    decreases s
  {
    hide Run, OnTag, EnvOf, Enter, AddParagraph, Tags;
    match s
    case Nil => RunEmpty(st);
    case Solo(name, start, end, rest) =>
      RunSolo(st, name, start, end, rest);
      StepSolo(st, name, start, end);
      RunIsWalk(rest, OnTag(st, Tag(name, false, true, start, end)));
    case Box(name, start, inner, kids, close, end, rest) =>
      RunBox(st, s);
      StepOpen(st, name, start, inner);
      var lab := LabelOf(name, st.work);
      var within := State(st.stack + [lab], true, false, Enter(name, start, inner, EnvOf(st.stack), st.work));
      RunIsWalk(kids, within);
      EnvPush(st.stack, name, st.work);
      var after := Run(within, Tags(kids));
      var closed := OnTag(after, Tag(name, true, false, close, end));
      if Cuts(kids) {
        CloseLater(after, name, close, end);
        RunClosed(closed, Tags(rest));
        WalkCut(s, EnvOf(st.stack), st.work);
      } else {
        UntilAll(kids);
        StepClose(st.(work := after.work), lab, name, close, end);
        if name == BODY {
          WalkCut(s, EnvOf(st.stack), st.work);
          RunClosed(closed, Tags(rest));
        } else {
          RunIsWalk(rest, closed);
        }
      }
  }

  lemma {:induction false} RunEmpty(st: State)
    ensures Run(st, Tags(Nil)) == st
  {}

  lemma {:induction false} CloseLater(st: State, name: seq<byte>, start: nat, end: nat)
    requires st.bodyOpen && st.bodyClosed
    ensures var r := OnTag(st, Tag(name, true, false, start, end));
            r.bodyOpen && r.bodyClosed && r.work.located == st.work.located
  {}

  lemma {:induction false} WalkCut(s: Shape, env: Env, w: Work)
    requires s.Box? && (Cuts(s.kids) || s.name == BODY)
    ensures Walk(Until(s), env, w).located
         == Walk(Until(s.kids), Below(s.name, env, w), Enter(s.name, s.start, s.inner, env, w)).located
  {
    hide Enter, Below;
    assert Until(s) == Box(s.name, s.start, s.inner, Until(s.kids), s.close, s.end, Nil);
  }

  // ----- the whole document -----

  /** What the pass works on, and whether a `body` has closed by then. */
  datatype Region = Region(part: Shape, closed: bool)

  /**
   Everything between the tag that opens the first `body` and the next closing tag of a `body`. After `<body/>` that is
   what follows it, there and around.
   */
  function BodyRegion(s: Shape): Option<Region> {
    match s
    case Nil => None
    case Solo(name, _, _, rest) => if name == BODY then Some(Region(Until(rest), Cuts(rest))) else BodyRegion(rest)
    case Box(name, _, _, kids, _, _, rest) =>
      if name == BODY then Some(Region(Until(kids), true))
      else
        match BodyRegion(kids)
        case None => BodyRegion(rest)
        case Some(r) => if r.closed then Some(r) else Some(Region(Append(r.part, Until(rest)), Cuts(rest)))
  }

  const TOP := Env(true, false, None)
  const NOTHING := Work([], 0, 0, 0, [])
  const IN_BODY := State([Named(BODY)], true, false, NOTHING)

  ghost predicate LeavesOff(s: Shape, r: State) {
    match BodyRegion(s)
    case None => r == START
    case Some(region) =>
      var w := Walk(region.part, TOP, NOTHING);
      if region.closed then r.bodyOpen && r.bodyClosed && r.work.located == w.located
      else r == State([Named(BODY)], true, false, w)
  }

  lemma {:induction false} TopEnv()
    ensures EnvOf([Named(BODY)]) == TOP
  {
    assert LastControl([Named(BODY)]) == None by { assert [Named(BODY)][..0] == []; }
  }

  /** Going on after `<body/>`, at the level of one of its ancestors. */
  lemma {:induction false} RunFollowing(part: Shape, rest: Shape)
    ensures var st := State([Named(BODY)], true, false, Walk(part, TOP, NOTHING));
            var r := Run(st, Tags(rest));
            var w := Walk(Append(part, Until(rest)), TOP, NOTHING);
            if Cuts(rest) then r.bodyOpen && r.bodyClosed && r.work.located == w.located
            else r == State([Named(BODY)], true, false, w)
  {
    hide Run, EnvOf, Walk, Tags;
    var st := State([Named(BODY)], true, false, Walk(part, TOP, NOTHING));
    TopEnv();
    RunIsWalk(rest, st);
    WalkAppend(part, Until(rest), TOP, NOTHING);
    if !Cuts(rest) {
      UntilAll(rest);
    }
  }

  lemma {:induction false} WalkNil(env: Env, w: Work)
    ensures Walk(Nil, env, w) == w
  {}

  lemma {:induction false} BeforeBody(name: seq<byte>, start: nat, end: nat)
    requires name != BODY
    ensures OnTag(START, Tag(name, false, false, start, end)) == START && OnTag(START, Tag(name, false, true, start, end)) == START
    ensures OnTag(START, Tag(name, true, false, start, end)) == START
  {}

  lemma {:induction false} CloseAround(w: Work, name: seq<byte>, start: nat, end: nat)
    requires name != BODY
    ensures var st := State([Named(BODY)], true, false, w); OnTag(st, Tag(name, true, false, start, end)) == st
  {}

  lemma {:induction false} OpenBody(selfClosing: bool, start: nat, end: nat)
    ensures OnTag(START, Tag(BODY, false, selfClosing, start, end)) == IN_BODY
  {}

  /** For every tag stream of seen elements: the pass works on that region, and its stack ends empty or at `body`. */
  lemma {:induction false} RunDocument(s: Shape)
    ensures LeavesOff(s, Run(START, Tags(s)))
    decreases s
  {
    hide Run, OnTag, Walk, EnvOf, Tags;
    match s
    case Nil => RunEmpty(START);
    case Solo(name, start, end, rest) =>
      RunSolo(START, name, start, end, rest);
      if name == BODY {
        OpenBody(true, start, end);
        WalkNil(TOP, NOTHING);
        RunFollowing(Nil, rest);
      } else {
        BeforeBody(name, start, end);
        RunDocument(rest);
      }
    case Box(name, start, inner, kids, close, end, rest) =>
      RunBox(START, s);
      if name == BODY {
        RunBody(s);
      } else {
        BeforeBody(name, start, inner);
        BeforeBody(name, close, end);
        RunDocument(kids);
        RunAround(s);
      }
  }

  lemma {:induction false} RunBody(s: Shape)
    requires s.Box? && s.name == BODY
    ensures LeavesOff(s, Run(START, Tags(s)))
  {
    hide Run, OnTag, Walk, EnvOf, Tags;
    RunBox(START, s);
    OpenBody(false, s.start, s.inner);
    TopEnv();
    RunIsWalk(s.kids, IN_BODY);
    var after := Run(IN_BODY, Tags(s.kids));
    var closed := OnTag(after, Tag(BODY, true, false, s.close, s.end));
    if Cuts(s.kids) {
      CloseLater(after, BODY, s.close, s.end);
    } else {
      UntilAll(s.kids);
      CloseBody(after, s.close, s.end);
    }
    RunClosed(closed, Tags(s.rest));
  }

  lemma {:induction false} CloseBody(st: State, start: nat, end: nat)
    requires st.bodyOpen && st.stack == [Named(BODY)]
    ensures var r := OnTag(st, Tag(BODY, true, false, start, end));
            r.bodyOpen && r.bodyClosed && r.work.located == st.work.located
  {}

  /** An element around the first `body`, or before it. */
  lemma {:induction false} RunAround(s: Shape)
    requires s.Box? && s.name != BODY && LeavesOff(s.kids, Run(START, Tags(s.kids)))
    ensures LeavesOff(s, Run(START, Tags(s)))
    decreases s, 0
  {
    hide Run, OnTag, Walk, EnvOf, Tags;
    RunBox(START, s);
    BeforeBody(s.name, s.start, s.inner);
    BeforeBody(s.name, s.close, s.end);
    var after := Run(START, Tags(s.kids));
    match BodyRegion(s.kids) {
      case None => RunDocument(s.rest);
      case Some(r) =>
        if r.closed {
          CloseLater(after, s.name, s.close, s.end);
          RunClosed(OnTag(after, Tag(s.name, true, false, s.close, s.end)), Tags(s.rest));
        } else {
          CloseAround(Walk(r.part, TOP, NOTHING), s.name, s.close, s.end);
          RunFollowing(r.part, s.rest);
        }
    }
  }

  /** What the pass works on. */
  function Part(s: Shape): Shape {
    match BodyRegion(s)
    case None => Nil
    case Some(r) => r.part
  }

  /** So what it locates is what the recursion over that part locates. */
  lemma {:induction false} LocatedIsWalk(s: Shape)
    ensures Run(START, Tags(s)).work.located == Walk(Part(s), TOP, NOTHING).located
  {
    hide Run, Walk, Tags;
    RunDocument(s);
    WalkNil(TOP, NOTHING);
  }

  // ----- appending -----

  lemma {:induction false} AppendNil(s: Shape)
    ensures Append(s, Nil) == s
  {
    match s
    case Nil =>
    case Solo(_, _, _, rest) => AppendNil(rest);
    case Box(_, _, _, _, _, _, rest) => AppendNil(rest);
  }

  /** The positions lie in `[lo, hi]` and grow along the tags. */
  ghost predicate Ordered(s: Shape, lo: nat, hi: nat) {
    match s
    case Nil => lo <= hi
    case Solo(_, start, end, rest) => lo <= start < end && Ordered(rest, end, hi)
    case Box(_, start, inner, kids, close, end, rest) =>
      lo <= start < inner && Ordered(kids, inner, close) && close < end && Ordered(rest, end, hi)
  }

  lemma {:induction false} OrderedBounds(s: Shape, lo: nat, hi: nat)
    requires Ordered(s, lo, hi)
    ensures lo <= hi
    decreases s
  {
    match s
    case Nil =>
    case Solo(_, _, end, rest) => OrderedBounds(rest, end, hi);
    case Box(_, _, inner, kids, close, end, rest) =>
      OrderedBounds(kids, inner, close);
      OrderedBounds(rest, end, hi);
  }

  lemma {:induction false} OrderedFrom(s: Shape, lo: nat, lo': nat, hi: nat)
    requires lo <= lo' && Ordered(s, lo', hi)
    ensures Ordered(s, lo, hi)
  {}

  lemma {:induction false} OrderedAppend(a: Shape, b: Shape, lo: nat, mid: nat, mid': nat, hi: nat)
    requires Ordered(a, lo, mid) && mid <= mid' && Ordered(b, mid', hi)
    ensures Ordered(Append(a, b), lo, hi)
    decreases a
  {
    match a
    case Nil => OrderedFrom(b, lo, mid', hi);
    case Solo(_, _, end, rest) => OrderedAppend(rest, b, end, mid, mid', hi);
    case Box(_, _, _, _, _, end, rest) => OrderedAppend(rest, b, end, mid, mid', hi);
  }

  lemma {:induction false} UntilOrdered(s: Shape, lo: nat, hi: nat)
    requires Ordered(s, lo, hi)
    ensures Ordered(Until(s), lo, hi)
    decreases s
  {
    match s
    case Nil =>
    case Solo(_, _, end, rest) => UntilOrdered(rest, end, hi);
    case Box(_, _, inner, kids, close, end, rest) =>
      UntilOrdered(kids, inner, close);
      UntilOrdered(rest, end, hi);
      OrderedBounds(rest, end, hi);
  }

  lemma {:induction false} ElemSize(h: TagHead, kids: Forest, tail: seq<byte>, rest: Forest, off: nat)
    ensures off + |Print(Elem(h, kids, tail, rest))| == EndAt(h, kids, tail, off) + |Print(rest)|
    ensures off < InnerAt(h, off) <= CloseAt(h, kids, off) < EndAt(h, kids, tail, off)
    ensures InnerAt(h, off) + |Print(kids)| == CloseAt(h, kids, off)
  {}

  lemma {:induction false} EmptySize(h: TagHead, rest: Forest, off: nat)
    ensures off < EmptyEnd(h, off) && off + |Print(Empty(h, rest))| == EmptyEnd(h, off) + |Print(rest)|
  {}

  lemma {:induction false} SeenOrdered(f: Forest, off: nat)
    ensures Ordered(SeenIn(f, off), off, off + |Print(f)|)
    decreases f
  {
    hide PrintOpen, PrintEmpty, PrintClose, PrintName;
    match f
    case Done =>
    case LeafNode(l, rest) =>
      SeenOrdered(rest, LeafEnd(l, off));
      OrderedFrom(SeenIn(rest, LeafEnd(l, off)), off, LeafEnd(l, off), off + |Print(f)|);
    case Empty(h, rest) =>
      SeenOrdered(rest, EmptyEnd(h, off));
      EmptySize(h, rest, off);
      OrderedFrom(SeenIn(rest, EmptyEnd(h, off)), off, EmptyEnd(h, off), off + |Print(f)|);
    case Elem(h, kids, tail, rest) =>
      var inner, close, end := InnerAt(h, off), CloseAt(h, kids, off), EndAt(h, kids, tail, off);
      ElemSize(h, kids, tail, rest, off);
      SeenOrdered(kids, inner);
      SeenOrdered(rest, end);
      OrderedFrom(SeenIn(kids, inner), off, inner, close);
      OrderedAppend(SeenIn(kids, inner), SeenIn(rest, end), off, close, end, off + |Print(f)|);
  }
}
