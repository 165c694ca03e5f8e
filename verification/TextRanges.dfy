/** Byte ranges of the `w:t` elements, recorded from the parser's start and end callbacks and paired by position. */
module TextRanges {
  import opened Sequences
  import opened Scanner
  import opened Markup
  import opened LocatorTrees

  const T_LOCAL: seq<byte> := [116]
  const END_OPEN: seq<byte> := [60, 47]

  /** A parser callback; `wt` says whether the resolved name is `t` in the WordprocessingML namespace. */
  datatype Callback = StartCall(wt: bool, at: nat) | EndCall(wt: bool, at: nat)

  datatype Range = Range(start: nat, end: nat)

  datatype Record = Record(ranges: seq<Range>, stack: seq<nat>, failed: bool)

  function OnStart(doc: seq<byte>, r: Record, at: nat): Record {
    var close := Find(doc, [GT], at);
    if close < 0 then r.(failed := true)
    else if close > 0 && doc[close - 1] == SLASH then r.(ranges := r.ranges + [Range(close + 1, close + 1)])
    else r.(stack := r.stack + [close + 1])
  }

  function OnEnd(doc: seq<byte>, r: Record, at: nat): Record {
    if r.stack != [] && At(doc, END_OPEN, at) then
      Record(r.ranges + [Range(r.stack[|r.stack| - 1], at)], r.stack[..|r.stack| - 1], r.failed)
    else r
  }

  function OnCall(doc: seq<byte>, r: Record, c: Callback): Record {
    if !c.wt then r else if c.StartCall? then OnStart(doc, r, c.at) else OnEnd(doc, r, c.at)
  }

  function Handle(doc: seq<byte>, r: Record, calls: seq<Callback>): Record
    decreases |calls|
  {
    if calls == [] then r else Handle(doc, OnCall(doc, r, calls[0]), calls[1..])
  }

  const FRESH := Record([], [], false)

  function RangesOf(doc: seq<byte>, calls: seq<Callback>, parsed: bool, want: nat): Option<seq<Range>> {
    var r := Handle(doc, FRESH, calls);
    if !parsed || r.failed || |r.ranges| != want || r.stack != [] then None else Some(r.ranges)
  }

  /** `_wt_ranges_expat`, given the callbacks the parser makes and whether it reached the end without an error. */
  method WtRanges(doc: seq<byte>, calls: seq<Callback>, parsed: bool, want: nat) returns (found: Option<seq<Range>>)
    ensures found == RangesOf(doc, calls, parsed, want)
  {
    hide Handle, Find;
    var ranges: seq<Range> := [];
    var stack: seq<nat> := [];
    var failed := false;
    HandleAt(doc, FRESH, calls, 0);
    for i := 0 to |calls|
      invariant Handle(doc, Record(ranges, stack, failed), calls[i..]) == Handle(doc, FRESH, calls)
    {
      var call := calls[i];
      ghost var before := Record(ranges, stack, failed);
      if call.wt && call.StartCall? {
        var closeAngle := Find(doc, [GT], call.at);
        if closeAngle < 0 {
          failed := true;
        } else if closeAngle > 0 && doc[closeAngle - 1] == SLASH {
          ranges := ranges + [Range(closeAngle + 1, closeAngle + 1)];
        } else {
          stack := stack + [closeAngle + 1];
        }
      } else if call.wt {
        if stack != [] && At(doc, END_OPEN, call.at) {
          ranges := ranges + [Range(stack[|stack| - 1], call.at)];
          stack := stack[..|stack| - 1];
        }
      }
      assert Record(ranges, stack, failed) == OnCall(doc, before, call);
      HandleAt(doc, before, calls, i);
    }
    HandleAt(doc, Record(ranges, stack, failed), calls, |calls|);
    found := if !parsed || failed || |ranges| != want || stack != [] then None else Some(ranges);
  }

  lemma {:induction false} HandleAt(doc: seq<byte>, r: Record, calls: seq<Callback>, i: nat)
    requires i <= |calls|
    ensures Handle(doc, r, calls[i..]) == if i == |calls| then r else Handle(doc, OnCall(doc, r, calls[i]), calls[i + 1..])
    ensures calls[0..] == calls
  {
    if i < |calls| {
      assert calls[i..][1..] == calls[i + 1..];
    }
  }

  lemma {:induction false} HandleConcat(doc: seq<byte>, r: Record, a: seq<Callback>, b: seq<Callback>)
    ensures Handle(doc, r, a + b) == Handle(doc, Handle(doc, r, a), b)
    decreases |a|
  {
    if a == [] {
      assert a + b == b;
    } else {
      assert (a + b)[1..] == a[1..] + b;
      HandleConcat(doc, OnCall(doc, r, a[0]), a[1..], b);
    }
  }

  // ----- the callbacks of a tree and its own ranges -----

  predicate IsText(h: TagHead) {
    h.name.w && h.name.local == T_LOCAL
  }

  /** A self-closing element gets both callbacks: the start at its `<`, the end just past its `>`. */
  function Callbacks(f: Forest, off: nat): seq<Callback> {
    match f
    case Done => []
    case LeafNode(l, rest) => Callbacks(rest, LeafEnd(l, off))
    case Empty(h, rest) =>
      [StartCall(IsText(h), off), EndCall(IsText(h), EmptyEnd(h, off))] + Callbacks(rest, EmptyEnd(h, off))
    case Elem(h, kids, tail, rest) =>
      [StartCall(IsText(h), off)] + (Callbacks(kids, InnerAt(h, off))
      + ([EndCall(IsText(h), CloseAt(h, kids, off))] + Callbacks(rest, EndAt(h, kids, tail, off))))
  }

  /** The inner range of every `w:t`, in document order; a self-closing one has an empty range after its tag. */
  function Own(f: Forest, off: nat): seq<Range> {
    match f
    case Done => []
    case LeafNode(l, rest) => Own(rest, LeafEnd(l, off))
    case Empty(h, rest) =>
      (if IsText(h) then [Range(EmptyEnd(h, off), EmptyEnd(h, off))] else []) + Own(rest, EmptyEnd(h, off))
    case Elem(h, kids, tail, rest) =>
      (if IsText(h) then [Range(InnerAt(h, off), CloseAt(h, kids, off))] else [])
      + (Own(kids, InnerAt(h, off)) + Own(rest, EndAt(h, kids, tail, off)))
  }

  predicate HasText(f: Forest) {
    match f
    case Done => false
    case LeafNode(_, rest) => HasText(rest)
    case Empty(h, rest) => IsText(h) || HasText(rest)
    case Elem(h, kids, _, rest) => IsText(h) || HasText(kids) || HasText(rest)
  }

  /** No `>` before the one that ends the tag. */
  predicate Clean(h: TagHead) {
    GT !in PrintCore(h)
  }

  /** The caller's test: no `w:t` inside another, and no `>` among the attributes of a `w:t`. */
  predicate Pairable(f: Forest) {
    match f
    case Done => true
    case LeafNode(_, rest) => Pairable(rest)
    case Empty(h, rest) => (IsText(h) ==> Clean(h)) && Pairable(rest)
    case Elem(h, kids, _, rest) => (IsText(h) ==> Clean(h) && !HasText(kids)) && Pairable(kids) && Pairable(rest)
  }

  // ----- the first `>` after a tag opens -----

  lemma {:induction false} FirstAngle(doc: seq<byte>, off: nat, raw: seq<byte>)
    requires At(doc, [LT] + raw + [GT], off)
    ensures var c := Find(doc, [GT], off);
            && off < c <= off + 1 + |raw| && doc[c] == GT
            && (c == off + 1 + |raw| <==> GT !in raw)
            && (GT !in raw && raw != [] ==> doc[c - 1] == raw[|raw| - 1])
  {
    AtConcat(doc, [LT] + raw, [GT], off);
    AtConcat(doc, [LT], raw, off);
    AtIndex(doc, [GT], off + 1 + |raw|);
    ByteAt(doc, [LT], off, 0);
    AtIndex(doc, raw, off + 1);
    var c := Find(doc, [GT], off);
    ByteAt(doc, [GT], c, 0);
    if c < off + 1 + |raw| {
      assert doc[off + 1 + (c - off - 1)] == raw[c - off - 1];
    }
    forall i | 0 <= i < |raw| && raw[i] == GT ensures c <= off + 1 + i {
      assert doc[off + 1 + i] == raw[i];
      AtIndex(doc, [GT], off + 1 + i);
    }
    if raw != [] {
      assert doc[off + 1 + (|raw| - 1)] == raw[|raw| - 1];
    }
  }

  lemma {:induction false} CoreLast(h: TagHead)
    requires GoodHead(h)
    ensures var raw := PrintCore(h) + h.tail; raw != [] && raw[|raw| - 1] != SLASH && (GT in raw <==> !Clean(h))
    ensures GT in PrintCore(h) + (h.tail + [SLASH]) <==> !Clean(h)
  {
    CoreShape(h);
  }

  /** What the start callback of an element with content does. */
  lemma {:induction false} StartOpen(doc: seq<byte>, off: nat, h: TagHead, r: Record)
    requires GoodHead(h) && At(doc, PrintOpen(h), off)
    ensures if Clean(h) then OnStart(doc, r, off) == r.(stack := r.stack + [InnerAt(h, off)])
            else exists x :: off < x < InnerAt(h, off)
                   && (OnStart(doc, r, off) == r.(ranges := r.ranges + [Range(x, x)])
                       || OnStart(doc, r, off) == r.(stack := r.stack + [x]))
  {
    hide PrintCore;
    CoreLast(h);
    FirstAngle(doc, off, PrintCore(h) + h.tail);
    var x := Find(doc, [GT], off) + 1;
    assert off < x <= InnerAt(h, off);
  }

  lemma {:induction false} StartEmpty(doc: seq<byte>, off: nat, h: TagHead, r: Record)
    requires GoodHead(h) && At(doc, PrintEmpty(h), off)
    ensures var end := EmptyEnd(h, off);
            if Clean(h) then OnStart(doc, r, off) == r.(ranges := r.ranges + [Range(end, end)])
            else exists x :: off < x < end
                   && (OnStart(doc, r, off) == r.(ranges := r.ranges + [Range(x, x)])
                       || OnStart(doc, r, off) == r.(stack := r.stack + [x]))
  {
    hide PrintCore;
    CoreLast(h);
    FirstAngle(doc, off, PrintCore(h) + (h.tail + [SLASH]));
    var x := Find(doc, [GT], off) + 1;
    assert off < x <= EmptyEnd(h, off);
  }

  lemma {:induction false} EndHere(doc: seq<byte>, close: nat, n: Name, tail: seq<byte>, r: Record, s: nat)
    requires At(doc, PrintClose(n, tail), close) && r.stack != [] && r.stack[|r.stack| - 1] == s
    ensures OnEnd(doc, r, close) == Record(r.ranges + [Range(s, close)], r.stack[..|r.stack| - 1], r.failed)
  {
    hide PrintName;
    var text := PrintName(n) + tail + [GT];
    assert PrintClose(n, tail) == END_OPEN + text;
    AtConcat(doc, END_OPEN, text, close);
  }

  // ----- one element's callbacks -----

  lemma {:induction false} HandleElem(doc: seq<byte>, r: Record, h: TagHead, kids: Forest, tail: seq<byte>, rest: Forest,
                                      off: nat, more: seq<Callback>)
    ensures Handle(doc, r, Callbacks(Elem(h, kids, tail, rest), off) + more) ==
            Handle(doc, OnCall(doc, r, StartCall(IsText(h), off)),
                   Callbacks(kids, InnerAt(h, off))
                   + ([EndCall(IsText(h), CloseAt(h, kids, off))] + Callbacks(rest, EndAt(h, kids, tail, off)) + more))
  {
    hide InnerAt, CloseAt, EndAt, OnCall, IsText;
    var k := Callbacks(kids, InnerAt(h, off));
    var e := [EndCall(IsText(h), CloseAt(h, kids, off))] + Callbacks(rest, EndAt(h, kids, tail, off));
    var start := StartCall(IsText(h), off);
    var all := Callbacks(Elem(h, kids, tail, rest), off) + more;
    assert all == [start] + (k + (e + more));
    assert all[0] == start && all[1..] == k + (e + more);
  }

  lemma {:induction false} HandleCons(doc: seq<byte>, r: Record, c: Callback, rest: seq<Callback>, more: seq<Callback>)
    ensures Handle(doc, r, [c] + rest + more) == Handle(doc, OnCall(doc, r, c), rest + more)
  {
    var all := [c] + rest + more;
    assert all[0] == c && all[1..] == rest + more;
  }

  lemma {:induction false} HandleEmpty(doc: seq<byte>, r: Record, h: TagHead, rest: Forest, off: nat, more: seq<Callback>)
    ensures Handle(doc, r, Callbacks(Empty(h, rest), off) + more) ==
            Handle(doc, OnCall(doc, OnCall(doc, r, StartCall(IsText(h), off)), EndCall(IsText(h), EmptyEnd(h, off))),
                   Callbacks(rest, EmptyEnd(h, off)) + more)
  {
    hide Handle, EmptyEnd, OnCall, IsText;
    var a, b := StartCall(IsText(h), off), EndCall(IsText(h), EmptyEnd(h, off));
    var k := Callbacks(rest, EmptyEnd(h, off));
    assert Callbacks(Empty(h, rest), off) + more == [a] + ([b] + k) + more;
    HandleCons(doc, r, a, [b] + k, more);
    HandleCons(doc, OnCall(doc, r, a), b, k, more);
  }

  // ----- pairable documents -----

  lemma {:induction false} NoTextCalls(doc: seq<byte>, f: Forest, off: nat, r: Record, more: seq<Callback>)
    requires !HasText(f)
    ensures Handle(doc, r, Callbacks(f, off) + more) == Handle(doc, r, more)
    decreases f
  {
    hide PrintOpen, PrintEmpty, PrintClose, PrintLeaf, Print, IsText;
    match f
    case Done => assert Callbacks(f, off) + more == more;
    case LeafNode(l, rest) => NoTextCalls(doc, rest, LeafEnd(l, off), r, more);
    case Empty(h, rest) =>
      HandleEmpty(doc, r, h, rest, off, more);
      NoTextCalls(doc, rest, EmptyEnd(h, off), r, more);
    case Elem(h, kids, tail, rest) =>
      HandleElem(doc, r, h, kids, tail, rest, off, more);
      var e, k := EndCall(IsText(h), CloseAt(h, kids, off)), Callbacks(rest, EndAt(h, kids, tail, off));
      NoTextCalls(doc, kids, InnerAt(h, off), r, [e] + k + more);
      HandleCons(doc, r, e, k, more);
      NoTextCalls(doc, rest, EndAt(h, kids, tail, off), r, more);
  }

  /** In a pairable forest every `w:t` adds its own range, in document order. */
  lemma {:induction false} PairableCalls(doc: seq<byte>, f: Forest, off: nat, r: Record, more: seq<Callback>)
    requires WellFormed(f) && At(doc, Print(f), off) && Pairable(f) && r.stack == []
    ensures Handle(doc, r, Callbacks(f, off) + more) == Handle(doc, r.(ranges := r.ranges + Own(f, off)), more)
    decreases f
  {
    hide Handle, At, PrintOpen, PrintEmpty, PrintClose, PrintLeaf, IsText, Clean, OnStart, OnEnd, GoodHead, GoodLeaf, AllSpace;
    match f
    case Done =>
      assert Callbacks(f, off) + more == more;
      assert r.ranges + [] == r.ranges;
    case LeafNode(l, rest) =>
      AtConcat(doc, PrintLeaf(l), Print(rest), off);
      PairableCalls(doc, rest, LeafEnd(l, off), r, more);
    case Empty(h, rest) =>
      var end := EmptyEnd(h, off);
      AtConcat(doc, PrintEmpty(h), Print(rest), off);
      HandleEmpty(doc, r, h, rest, off, more);
      var own := if IsText(h) then [Range(end, end)] else [];
      if IsText(h) {
        StartEmpty(doc, off, h, r);
        EndNothing(doc, r.(ranges := r.ranges + own), end);
      } else {
        assert r.ranges + own == r.ranges;
      }
      PairableCalls(doc, rest, end, r.(ranges := r.ranges + own), more);
      assert r.ranges + own + Own(rest, end) == r.ranges + (own + Own(rest, end));
    case Elem(h, kids, tail, rest) => PairableElem(doc, h, kids, tail, rest, off, r, more);
  }

  lemma {:induction false} EndNothing(doc: seq<byte>, r: Record, at: nat)
    requires r.stack == []
    ensures OnEnd(doc, r, at) == r
  {}

  /** A `w:t` with a clean tag and no `w:t` inside records its own range. */
  lemma {:induction false} GoodText(doc: seq<byte>, h: TagHead, kids: Forest, tail: seq<byte>, rest: Forest,
                                    off: nat, r: Record, more: seq<Callback>)
    requires GoodHead(h) && At(doc, Print(Elem(h, kids, tail, rest)), off)
    requires IsText(h) && Clean(h) && !HasText(kids) && r.stack == []
    ensures Handle(doc, r, Callbacks(Elem(h, kids, tail, rest), off) + more) ==
            Handle(doc, r.(ranges := r.ranges + [Range(InnerAt(h, off), CloseAt(h, kids, off))]),
                   Callbacks(rest, EndAt(h, kids, tail, off)) + more)
  {
    hide Handle, At, Print, PrintOpen, PrintClose, IsText, Clean, OnStart, OnEnd, GoodHead, Callbacks, InnerAt, CloseAt, EndAt;
    var inner, close, end := InnerAt(h, off), CloseAt(h, kids, off), EndAt(h, kids, tail, off);
    var e, k := EndCall(IsText(h), close), Callbacks(rest, end);
    Places(doc, h, kids, tail, rest, off);
    HandleElem(doc, r, h, kids, tail, rest, off, more);
    var pushed := r.(stack := [inner]);
    StartOpen(doc, off, h, r);
    assert r.stack + [inner] == [inner];
    NoTextCalls(doc, kids, inner, pushed, [e] + k + more);
    HandleCons(doc, pushed, e, k, more);
    EndHere(doc, close, h.name, tail, pushed, inner);
    assert [inner][..0] == [];
  }

  lemma {:induction false} PairableElem(doc: seq<byte>, h: TagHead, kids: Forest, tail: seq<byte>, rest: Forest,
                                        off: nat, r: Record, more: seq<Callback>)
    requires var f := Elem(h, kids, tail, rest); WellFormed(f) && At(doc, Print(f), off) && Pairable(f)
    requires r.stack == []
    ensures var f := Elem(h, kids, tail, rest);
            Handle(doc, r, Callbacks(f, off) + more) == Handle(doc, r.(ranges := r.ranges + Own(f, off)), more)
    decreases Elem(h, kids, tail, rest), 0
  {
    hide Handle, At, Print, PrintOpen, PrintClose, IsText, Clean, OnStart, OnEnd, GoodHead, AllSpace, Callbacks,
         InnerAt, CloseAt, EndAt;
    var inner, close, end := InnerAt(h, off), CloseAt(h, kids, off), EndAt(h, kids, tail, off);
    Places(doc, h, kids, tail, rest, off);
    if IsText(h) {
      var own := [Range(inner, close)];
      GoodText(doc, h, kids, tail, rest, off, r, more);
      NoOwn(kids, inner);
      PairableCalls(doc, rest, end, r.(ranges := r.ranges + own), more);
      assert r.ranges + own + Own(rest, end) == r.ranges + (own + ([] + Own(rest, end)));
    } else {
      var e, k := EndCall(IsText(h), close), Callbacks(rest, end);
      var r1 := r.(ranges := r.ranges + Own(kids, inner));
      HandleElem(doc, r, h, kids, tail, rest, off, more);
      PairableCalls(doc, kids, inner, r, [e] + k + more);
      HandleCons(doc, r1, e, k, more);
      PairableCalls(doc, rest, end, r1, more);
      assert r.ranges + Own(kids, inner) + Own(rest, end) == r.ranges + ([] + (Own(kids, inner) + Own(rest, end)));
    }
  }

  lemma {:induction false} Places(doc: seq<byte>, h: TagHead, kids: Forest, tail: seq<byte>, rest: Forest, off: nat)
    requires At(doc, Print(Elem(h, kids, tail, rest)), off)
    ensures At(doc, PrintOpen(h), off) && At(doc, Print(kids), InnerAt(h, off))
    ensures At(doc, PrintClose(h.name, tail), CloseAt(h, kids, off)) && At(doc, Print(rest), EndAt(h, kids, tail, off))
  {
    hide At, Print, PrintOpen, PrintClose;
    ElemAt(doc, h, kids, tail, rest, off);
  }

  lemma {:induction false} NoOwn(f: Forest, off: nat)
    requires !HasText(f)
    ensures Own(f, off) == []
  {
    hide PrintOpen, PrintEmpty, PrintClose, PrintLeaf, Print, IsText;
    match f
    case Done =>
    case LeafNode(l, rest) => NoOwn(rest, LeafEnd(l, off));
    case Empty(h, rest) => NoOwn(rest, EmptyEnd(h, off));
    case Elem(h, kids, tail, rest) =>
      NoOwn(kids, InnerAt(h, off));
      NoOwn(rest, EndAt(h, kids, tail, off));
  }
}
