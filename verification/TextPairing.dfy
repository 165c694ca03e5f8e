/** When pairing the recorded ranges with the `w:t` elements by position is right, and what the ranges then are. */
module TextPairing {
  import opened Sequences
  import opened Scanner
  import opened Markup
  import opened LocatorTrees
  import opened TextRanges

  ghost predicate From(calls: seq<Callback>, s: nat) {
    forall i :: 0 <= i < |calls| ==> s <= calls[i].at
  }

  /** `later` begins with the ranges of `r`. */
  ghost predicate Grows(r: Record, later: Record) {
    |r.ranges| <= |later.ranges| && later.ranges[..|r.ranges|] == r.ranges
  }

  ghost predicate NewStart(r: Record, later: Record, s: nat) {
    Grows(r, later) && forall k :: |r.ranges| <= k < |later.ranges| ==> later.ranges[k].start != s
  }

  lemma {:induction false} CallGrows(doc: seq<byte>, r: Record, c: Callback)
    ensures Grows(r, OnCall(doc, r, c)) && |OnCall(doc, r, c).ranges| <= |r.ranges| + 1
  {}

  lemma {:induction false} GrowsTrans(a: Record, b: Record, c: Record)
    requires Grows(a, b) && Grows(b, c)
    ensures Grows(a, c)
    ensures forall k :: 0 <= k < |b.ranges| ==> c.ranges[k] == b.ranges[k]
  {
    assert a.ranges == b.ranges[..|a.ranges|] == c.ranges[..|b.ranges|][..|a.ranges|] == c.ranges[..|a.ranges|];
    forall k | 0 <= k < |b.ranges| ensures c.ranges[k] == b.ranges[k] {
      assert c.ranges[..|b.ranges|][k] == c.ranges[k];
    }
  }

  lemma {:induction false} HandleGrows(doc: seq<byte>, r: Record, calls: seq<Callback>)
    ensures Grows(r, Handle(doc, r, calls))
    decreases |calls|
  {
    if calls != [] {
      hide OnCall, Grows;
      CallGrows(doc, r, calls[0]);
      HandleGrows(doc, OnCall(doc, r, calls[0]), calls[1..]);
      GrowsTrans(r, OnCall(doc, r, calls[0]), Handle(doc, r, calls));
    } else {
      assert r.ranges[..|r.ranges|] == r.ranges;
    }
  }

  lemma {:induction false} StartBeyond(doc: seq<byte>, r: Record, at: nat, s: nat)
    requires s <= at
    ensures var r' := OnStart(doc, r, at);
            || r' == r.(failed := true)
            || exists x :: s < x && (r' == r.(ranges := r.ranges + [Range(x, x)]) || r' == r.(stack := r.stack + [x]))
  {
    var x := Find(doc, [GT], at) + 1;
    assert x > 0 ==> s < x;
  }

  /** Callbacks from `s` on never record a range starting at `s` unless one was on the stack. */
  lemma {:induction false} NeverStarts(doc: seq<byte>, r: Record, calls: seq<Callback>, s: nat)
    requires From(calls, s) && s !in r.stack
    ensures NewStart(r, Handle(doc, r, calls), s)
    decreases |calls|
  {
    if calls == [] {
      assert r.ranges[..|r.ranges|] == r.ranges;
    } else {
      var r' := OnCall(doc, r, calls[0]);
      OneStep(doc, r, calls[0], s);
      NeverStarts(doc, r', calls[1..], s);
      GrowsTrans(r, r', Handle(doc, r, calls));
    }
  }

  lemma {:induction false} OneStep(doc: seq<byte>, r: Record, c: Callback, s: nat)
    requires s <= c.at && s !in r.stack
    ensures var r' := OnCall(doc, r, c); NewStart(r, r', s) && s !in r'.stack
  {
    CallGrows(doc, r, c);
    if c.wt && c.StartCall? {
      StartBeyond(doc, r, c.at, s);
    }
  }

  /** The first new range, if there is one, starts beyond `s`. */
  ghost predicate FirstBeyond(r: Record, later: Record, s: nat) {
    Grows(r, later) && (|r.ranges| < |later.ranges| ==> later.ranges[|r.ranges|].start > s)
  }

  lemma {:induction false} FirstBeyondStep(r: Record, r': Record, later: Record, s: nat)
    requires Grows(r, r') && Grows(r', later)
    requires if |r'.ranges| > |r.ranges| then r'.ranges[|r.ranges|].start > s else FirstBeyond(r', later, s)
    ensures FirstBeyond(r, later, s)
  {
    GrowsTrans(r, r', later);
  }

  lemma {:induction false} TopBeyond(doc: seq<byte>, r: Record, calls: seq<Callback>, s: nat)
    requires From(calls, s) && r.stack != [] && r.stack[|r.stack| - 1] > s
    ensures FirstBeyond(r, Handle(doc, r, calls), s)
    decreases |calls|
  {
    HandleGrows(doc, r, calls);
    if calls != [] {
      var r' := OnCall(doc, r, calls[0]);
      CallGrows(doc, r, calls[0]);
      HandleGrows(doc, r', calls[1..]);
      if calls[0].wt && calls[0].StartCall? {
        StartBeyond(doc, r, calls[0].at, s);
      }
      if |r'.ranges| == |r.ranges| {
        TopBeyond(doc, r', calls[1..], s);
      }
      FirstBeyondStep(r, r', Handle(doc, r, calls), s);
    }
  }

  /** The first callback about a `w:t` is a start. */
  ghost predicate FirstIsStart(calls: seq<Callback>)
    decreases |calls|
  {
    calls == [] || (if calls[0].wt then calls[0].StartCall? else FirstIsStart(calls[1..]))
  }

  lemma {:induction false} StaysFailed(doc: seq<byte>, r: Record, calls: seq<Callback>)
    requires r.failed
    ensures Handle(doc, r, calls).failed
    decreases |calls|
  {
    if calls != [] {
      StaysFailed(doc, OnCall(doc, r, calls[0]), calls[1..]);
    }
  }

  lemma {:induction false} StartFirst(doc: seq<byte>, r: Record, calls: seq<Callback>, s: nat)
    requires From(calls, s) && FirstIsStart(calls)
    ensures FirstBeyond(r, Handle(doc, r, calls), s) || Handle(doc, r, calls).failed
    decreases |calls|
  {
    HandleGrows(doc, r, calls);
    if calls != [] {
      var r' := OnCall(doc, r, calls[0]);
      CallGrows(doc, r, calls[0]);
      HandleGrows(doc, r', calls[1..]);
      if !calls[0].wt {
        StartFirst(doc, r, calls[1..], s);
      } else if Find(doc, [GT], calls[0].at) < 0 {
        StaysFailed(doc, r', calls[1..]);
      } else {
        StartBeyond(doc, r, calls[0].at, s);
        if |r'.ranges| == |r.ranges| {
          TopBeyond(doc, r', calls[1..], s);
        }
        FirstBeyondStep(r, r', Handle(doc, r, calls), s);
      }
    }
  }

  // ----- callbacks of trees -----

  lemma {:induction false} FromConcat(a: seq<Callback>, b: seq<Callback>, s: nat)
    requires From(a, s) && From(b, s)
    ensures From(a + b, s)
  {}

  lemma {:induction false} FromLower(calls: seq<Callback>, s: nat, s': nat)
    requires From(calls, s) && s' <= s
    ensures From(calls, s')
  {}

  lemma {:induction false} CallsFrom(f: Forest, off: nat)
    ensures From(Callbacks(f, off), off)
  {
    hide PrintOpen, PrintEmpty, PrintClose, PrintLeaf, Print, IsText;
    match f
    case Done =>
    case LeafNode(l, rest) => CallsFrom(rest, LeafEnd(l, off));
    case Empty(h, rest) => CallsFrom(rest, EmptyEnd(h, off));
    case Elem(h, kids, tail, rest) =>
      CallsFrom(kids, InnerAt(h, off));
      CallsFrom(rest, EndAt(h, kids, tail, off));
  }

  lemma {:induction false} TextStartsFirst(f: Forest, off: nat, more: seq<Callback>)
    requires HasText(f) || FirstIsStart(more)
    ensures FirstIsStart(Callbacks(f, off) + more)
    decreases f
  {
    hide PrintOpen, PrintEmpty, PrintClose, PrintLeaf, Print, IsText;
    match f
    case Done => assert Callbacks(f, off) + more == more;
    case LeafNode(l, rest) => TextStartsFirst(rest, LeafEnd(l, off), more);
    case Empty(h, rest) =>
      var all := Callbacks(f, off) + more;
      if !IsText(h) {
        assert all[1..][1..] == Callbacks(rest, EmptyEnd(h, off)) + more;
        TextStartsFirst(rest, EmptyEnd(h, off), more);
      }
    case Elem(h, kids, tail, rest) =>
      var all := Callbacks(f, off) + more;
      if !IsText(h) {
        var e := EndCall(IsText(h), CloseAt(h, kids, off));
        var k := Callbacks(rest, EndAt(h, kids, tail, off));
        assert all[1..] == Callbacks(kids, InnerAt(h, off)) + ([e] + (k + more));
        if HasText(rest) || FirstIsStart(more) {
          TextStartsFirst(rest, EndAt(h, kids, tail, off), more);
        }
        assert ([e] + (k + more))[1..] == k + more;
        TextStartsFirst(kids, InnerAt(h, off), [e] + (k + more));
      }
  }

  lemma {:induction false} NoTextPairable(f: Forest)
    requires !HasText(f)
    ensures Pairable(f)
  {
    match f
    case Done =>
    case LeafNode(_, rest) => NoTextPairable(rest);
    case Empty(_, rest) => NoTextPairable(rest);
    case Elem(_, kids, _, rest) =>
      NoTextPairable(kids);
      NoTextPairable(rest);
  }

  /** Some element does not get its own range, no matter what follows. */
  ghost predicate Misses(later: Record, n: nat, own: seq<Range>) {
    later.failed || exists i :: 0 <= i < |own| && !(n + i < |later.ranges| && later.ranges[n + i] == own[i])
  }

  lemma {:induction false} MissesAfter(later: Record, n: nat, head: seq<Range>, own: seq<Range>)
    requires Misses(later, n + |head|, own)
    ensures Misses(later, n, head + own)
  {
    if !later.failed {
      var i :| 0 <= i < |own| && !(n + |head| + i < |later.ranges| && later.ranges[n + |head| + i] == own[i]);
      assert (head + own)[|head| + i] == own[i];
      assert !(n + (|head| + i) < |later.ranges| && later.ranges[n + (|head| + i)] == (head + own)[|head| + i]);
    }
  }

  lemma {:induction false} MissesBefore(later: Record, n: nat, own: seq<Range>, tail: seq<Range>)
    requires Misses(later, n, own)
    ensures Misses(later, n, own + tail)
  {
    if !later.failed {
      var i :| 0 <= i < |own| && !(n + i < |later.ranges| && later.ranges[n + i] == own[i]);
      assert (own + tail)[i] == own[i];
    }
  }

  lemma {:induction false} MissesFirst(later: Record, n: nat, own: seq<Range>)
    requires own != []
    requires later.failed || n >= |later.ranges| || later.ranges[n].start != own[0].start
    ensures Misses(later, n, own)
  {
    if !later.failed {
      var i := 0;
      assert own[i] == own[0];
      assert !(n + i < |later.ranges| && later.ranges[n + i] == own[i]);
    }
  }

  /** A start callback that finds a `>` too early: the element's own start is never recorded in its place. */
  lemma {:induction false} EarlyStart(doc: seq<byte>, r: Record, r': Record, x: nat, s: nat, calls: seq<Callback>)
    requires r.stack == [] && x != s && From(calls, s)
    requires r' == r.(ranges := r.ranges + [Range(x, x)]) || r' == r.(stack := r.stack + [x])
    ensures var later := Handle(doc, r', calls);
            |r.ranges| >= |later.ranges| || later.ranges[|r.ranges|].start != s
  {
    var later := Handle(doc, r', calls);
    if r' == r.(ranges := r.ranges + [Range(x, x)]) {
      HandleGrows(doc, r', calls);
      assert later.ranges[..|r'.ranges|][|r.ranges|] == Range(x, x);
    } else {
      NeverStarts(doc, r', calls, s);
    }
  }

  lemma {:induction false} BadEmpty(doc: seq<byte>, h: TagHead, rest: Forest, off: nat, r: Record, more: seq<Callback>)
    requires GoodHead(h) && At(doc, PrintEmpty(h), off) && IsText(h) && !Clean(h) && r.stack == []
    requires From(more, EmptyEnd(h, off))
    ensures Misses(Handle(doc, r, Callbacks(Empty(h, rest), off) + more), |r.ranges|, Own(Empty(h, rest), off))
  {
    hide Handle, OnStart, OnEnd, At, GoodHead, IsText, Clean, PrintEmpty;
    var end := EmptyEnd(h, off);
    StartEmpty(doc, off, h, r);
    var r' := OnStart(doc, r, off);
    var x :| off < x < end && (r' == r.(ranges := r.ranges + [Range(x, x)]) || r' == r.(stack := r.stack + [x]));
    var e, k := EndCall(true, end), Callbacks(rest, end);
    CallsFrom(rest, end);
    FromConcat(k, more, end);
    FromConcat([e], k + more, end);
    EmptyStart(doc, r, h, rest, off, more);
    EarlyStart(doc, r, r', x, end, [e] + (k + more));
    MissesFirst(Handle(doc, r', [e] + (k + more)), |r.ranges|, Own(Empty(h, rest), off));
  }

  lemma {:induction false} EmptyStart(doc: seq<byte>, r: Record, h: TagHead, rest: Forest, off: nat, more: seq<Callback>)
    ensures Handle(doc, r, Callbacks(Empty(h, rest), off) + more) ==
            Handle(doc, OnCall(doc, r, StartCall(IsText(h), off)),
                   [EndCall(IsText(h), EmptyEnd(h, off))] + (Callbacks(rest, EmptyEnd(h, off)) + more))
  {
    hide Handle, OnCall, IsText, EmptyEnd;
    var a, e := StartCall(IsText(h), off), EndCall(IsText(h), EmptyEnd(h, off));
    var k := Callbacks(rest, EmptyEnd(h, off));
    assert Callbacks(Empty(h, rest), off) + more == [a] + ([e] + k) + more;
    HandleCons(doc, r, a, [e] + k, more);
    assert [e] + k + more == [e] + (k + more);
  }

  lemma {:induction false} BadElem(doc: seq<byte>, h: TagHead, kids: Forest, tail: seq<byte>, rest: Forest,
                                   off: nat, r: Record, more: seq<Callback>)
    requires GoodHead(h) && At(doc, PrintOpen(h), off) && IsText(h) && r.stack == []
    requires !Clean(h) || HasText(kids)
    requires From(more, EndAt(h, kids, tail, off))
    ensures var f := Elem(h, kids, tail, rest);
            Misses(Handle(doc, r, Callbacks(f, off) + more), |r.ranges|, Own(f, off))
  {
    hide Handle, OnStart, OnEnd, At, GoodHead, IsText, Clean, PrintOpen, Print, PrintClose, FirstIsStart;
    var inner, close, end := InnerAt(h, off), CloseAt(h, kids, off), EndAt(h, kids, tail, off);
    var e, kc, rc := EndCall(true, close), Callbacks(kids, inner), Callbacks(rest, end);
    var calls := kc + ([e] + rc + more);
    CallsFrom(kids, inner);
    CallsFrom(rest, end);
    FromConcat(rc, more, end);
    FromLower(rc + more, end, inner);
    FromConcat([e], rc + more, inner);
    assert [e] + rc + more == [e] + (rc + more);
    FromConcat(kc, [e] + rc + more, inner);
    HandleElem(doc, r, h, kids, tail, rest, off, more);
    StartOpen(doc, off, h, r);
    var r' := OnStart(doc, r, off);
    var later := Handle(doc, r', calls);
    if !Clean(h) {
      var x :| off < x < inner && (r' == r.(ranges := r.ranges + [Range(x, x)]) || r' == r.(stack := r.stack + [x]));
      EarlyStart(doc, r, r', x, inner, calls);
    } else {
      TextStartsFirst(kids, inner, [e] + rc + more);
      StartFirst(doc, r', calls, inner);
    }
    MissesFirst(later, |r.ranges|, Own(Elem(h, kids, tail, rest), off));
  }

  lemma {:induction false} Wrong(doc: seq<byte>, f: Forest, off: nat, r: Record, more: seq<Callback>)
    requires WellFormed(f) && At(doc, Print(f), off) && !Pairable(f) && r.stack == []
    requires From(more, off + |Print(f)|)
    ensures Misses(Handle(doc, r, Callbacks(f, off) + more), |r.ranges|, Own(f, off))
    decreases f, 1
  {
    hide Handle, At, PrintOpen, PrintEmpty, PrintClose, PrintLeaf, IsText, Clean, OnStart, OnEnd, GoodHead, GoodLeaf,
         AllSpace, From, Misses;
    match f
    case LeafNode(l, rest) =>
      AtConcat(doc, PrintLeaf(l), Print(rest), off);
      Wrong(doc, rest, LeafEnd(l, off), r, more);
    case Empty(h, rest) =>
      var end := EmptyEnd(h, off);
      AtConcat(doc, PrintEmpty(h), Print(rest), off);
      if IsText(h) && !Clean(h) {
        FromLower(more, off + |Print(f)|, end);
        BadEmpty(doc, h, rest, off, r, more);
      } else {
        var own := if IsText(h) then [Range(end, end)] else [];
        HandleEmpty(doc, r, h, rest, off, more);
        if IsText(h) {
          StartEmpty(doc, off, h, r);
          EndNothing(doc, r.(ranges := r.ranges + own), end);
        } else {
          assert r.ranges + own == r.ranges;
        }
        Wrong(doc, rest, end, r.(ranges := r.ranges + own), more);
        MissesAfter(Handle(doc, r, Callbacks(f, off) + more), |r.ranges|, own, Own(rest, end));
      }
    case Elem(h, kids, tail, rest) => WrongElem(doc, h, kids, tail, rest, off, r, more);
  }

  lemma {:induction false} WrongElem(doc: seq<byte>, h: TagHead, kids: Forest, tail: seq<byte>, rest: Forest,
                                     off: nat, r: Record, more: seq<Callback>)
    requires var f := Elem(h, kids, tail, rest);
             WellFormed(f) && At(doc, Print(f), off) && !Pairable(f) && From(more, off + |Print(f)|)
    requires r.stack == []
    ensures var f := Elem(h, kids, tail, rest);
            Misses(Handle(doc, r, Callbacks(f, off) + more), |r.ranges|, Own(f, off))
    decreases Elem(h, kids, tail, rest), 0
  {
    hide Handle, At, Print, PrintOpen, PrintClose, IsText, Clean, OnStart, OnEnd, GoodHead, AllSpace, Callbacks,
         InnerAt, CloseAt, EndAt, Misses, From;
    var inner, close, end := InnerAt(h, off), CloseAt(h, kids, off), EndAt(h, kids, tail, off);
    var e, k := EndCall(IsText(h), close), Callbacks(rest, end);
    Places(doc, h, kids, tail, rest, off);
    ElemSize(h, kids, tail, rest, off);
    var later := Handle(doc, r, Callbacks(Elem(h, kids, tail, rest), off) + more);
    if IsText(h) && (!Clean(h) || HasText(kids)) {
      FromLower(more, end + |Print(rest)|, end);
      BadElem(doc, h, kids, tail, rest, off, r, more);
    } else if IsText(h) {
      NoTextPairable(kids);
      GoodText(doc, h, kids, tail, rest, off, r, more);
      var own := [Range(inner, close)];
      NoOwn(kids, inner);
      Wrong(doc, rest, end, r.(ranges := r.ranges + own), more);
      MissesAfter(later, |r.ranges|, own, Own(rest, end));
      assert [] + Own(rest, end) == Own(rest, end);
    } else {
      HandleElem(doc, r, h, kids, tail, rest, off, more);
      var own := Own(kids, inner);
      if !Pairable(kids) {
        LaterCalls(e, k, more, rest, close, end);
        Wrong(doc, kids, inner, r, [e] + k + more);
        MissesBefore(later, |r.ranges|, own, Own(rest, end));
      } else {
        var r1 := r.(ranges := r.ranges + own);
        PairableCalls(doc, kids, inner, r, [e] + k + more);
        HandleCons(doc, r1, e, k, more);
        Wrong(doc, rest, end, r1, more);
        MissesAfter(later, |r.ranges|, own, Own(rest, end));
      }
      assert [] + (own + Own(rest, end)) == own + Own(rest, end);
    }
  }

  lemma {:induction false} LaterCalls(e: Callback, k: seq<Callback>, more: seq<Callback>, rest: Forest, close: nat, end: nat)
    requires e.at == close <= end && k == Callbacks(rest, end) && From(more, end + |Print(rest)|)
    ensures From([e] + k + more, close)
  {
    CallsFrom(rest, end);
  }

  /**
   For every well-formed document: pairing the i-th recorded range with the i-th `w:t` gives every element its own
   inner range if and only if no `w:t` stands inside another and no `w:t` tag holds a `>` before its last one.
   */
  lemma {:induction false} PairingExact(f: Forest)
    requires WellFormed(f)
    ensures RangesOf(Print(f), Callbacks(f, 0), true, |Own(f, 0)|) == Some(Own(f, 0)) <==> Pairable(f)
  {
    hide Handle, At, WellFormed, Callbacks, Own, Pairable, Misses;
    var doc, own := Print(f), Own(f, 0);
    var later := Handle(doc, FRESH, Callbacks(f, 0) + []);
    assert Callbacks(f, 0) + [] == Callbacks(f, 0);
    Whole(doc);
    if Pairable(f) {
      PairableCalls(doc, f, 0, FRESH, []);
      HandleNone(doc, FRESH.(ranges := FRESH.ranges + own));
      assert [] + own == own;
    } else {
      Wrong(doc, f, 0, FRESH, []);
      MissesIsWrong(later, own);
    }
  }

  lemma {:induction false} Whole(doc: seq<byte>)
    ensures At(doc, doc, 0)
  {}

  lemma {:induction false} HandleNone(doc: seq<byte>, r: Record)
    ensures Handle(doc, r, []) == r
  {}

  lemma {:induction false} MissesIsWrong(later: Record, own: seq<Range>)
    requires Misses(later, 0, own)
    ensures later.failed || later.ranges != own
  {}

  // ----- concrete failures -----

  /** `<t></t>` or `<t a=">"></t>`, bound to the WordprocessingML namespace, around something. */
  function TextElement(attrs: seq<Attr>, kids: Forest): Forest {
    Elem(TagHead(Name(None, T_LOCAL, true), attrs, []), kids, [], Done)
  }

  /** `<t><t></t></t>`: the ranges come in the order the elements close, so the outer one gets the inner range. */
  lemma {:induction false} NestedTextFails()
    ensures var f := TextElement([], TextElement([], Done));
            WellFormed(f) && RangesOf(Print(f), Callbacks(f, 0), true, |Own(f, 0)|) != Some(Own(f, 0))
  {
    hide RangesOf, Print, Callbacks, Own;
    var inner := TextElement([], Done);
    assert WellFormed(Done) && GoodHead(inner.head) && AllSpace([]);
    assert WellFormed(inner) && HasText(inner);
    PairingExact(TextElement([], inner));
  }

  /** ` a=">"` */
  const ANGLE: Attr := Attr([32], [97], [61], 34, [GT])

  /** `<t a=">"></t>`: the range starts inside the opening tag. */
  lemma {:induction false} AngleInTagFails()
    ensures var f := TextElement([ANGLE], Done);
            WellFormed(f) && RangesOf(Print(f), Callbacks(f, 0), true, |Own(f, 0)|) != Some(Own(f, 0))
  {
    hide RangesOf, Print, Callbacks, Own;
    var f := TextElement([ANGLE], Done);
    assert WellFormed(Done) && GoodAttr(ANGLE) && AllSpace([]);
    assert WellFormed(f);
    AngleInCore();
    PairingExact(f);
  }

  lemma {:induction false} AngleInCore()
    ensures !Clean(TextElement([ANGLE], Done).head)
  {
    var h := TextElement([ANGLE], Done).head;
    var a := PrintAttr(ANGLE);
    assert a == [32, 97, 61, 34, GT, 34] && a[4] == GT;
    assert [ANGLE][1..] == [] && PrintAttrs([]) == [];
    assert PrintAttrs(h.attrs) == a + [] == a;
    assert PrintCore(h) == T_LOCAL + a;
    assert PrintCore(h)[|T_LOCAL| + 4] == GT;
  }

  // ----- what the ranges are -----

  /** The content of every `w:t`, in the same order. */
  function OwnKids(f: Forest): seq<Forest> {
    match f
    case Done => []
    case LeafNode(_, rest) => OwnKids(rest)
    case Empty(h, rest) => (if IsText(h) then [Done] else []) + OwnKids(rest)
    case Elem(h, kids, _, rest) => (if IsText(h) then [kids] else []) + (OwnKids(kids) + OwnKids(rest))
  }

  /** Each range holds exactly the printed content of its element and follows a `>`. */
  ghost predicate Holds(doc: seq<byte>, ranges: seq<Range>, kids: seq<Forest>) {
    && |ranges| == |kids|
    && forall i :: 0 <= i < |ranges| ==>
         (0 < ranges[i].start <= ranges[i].end <= |doc| && doc[ranges[i].start - 1] == GT
          && doc[ranges[i].start..ranges[i].end] == Print(kids[i]))
  }

  /** The ranges are strictly increasing and lie apart, within the given bounds. */
  ghost predicate Apart(ranges: seq<Range>, lo: nat, hi: nat) {
    && (forall i :: 0 <= i < |ranges| ==> lo < ranges[i].start <= ranges[i].end <= hi)
    && (forall i, j :: 0 <= i < j < |ranges| ==> ranges[i].end < ranges[j].start)
  }

  lemma {:induction false} HoldsConcat(doc: seq<byte>, a: seq<Range>, b: seq<Range>, x: seq<Forest>, y: seq<Forest>)
    requires Holds(doc, a, x) && Holds(doc, b, y)
    ensures Holds(doc, a + b, x + y)
  {
    hide Print;
  }

  lemma {:induction false} ApartConcat(a: seq<Range>, b: seq<Range>, lo: nat, mid: nat, mid': nat, hi: nat)
    requires lo <= mid <= mid' <= hi && Apart(a, lo, mid) && Apart(b, mid', hi)
    ensures Apart(a + b, lo, hi)
  {}

  lemma {:induction false} OwnHolds(doc: seq<byte>, f: Forest, off: nat)
    requires At(doc, Print(f), off)
    ensures Holds(doc, Own(f, off), OwnKids(f))
    decreases f
  {
    hide At, PrintOpen, PrintEmpty, PrintClose, PrintLeaf, IsText, Holds;
    match f
    case Done => HoldsNone(doc);
    case LeafNode(l, rest) =>
      AtConcat(doc, PrintLeaf(l), Print(rest), off);
      OwnHolds(doc, rest, LeafEnd(l, off));
    case Empty(h, rest) =>
      var end := EmptyEnd(h, off);
      AtConcat(doc, PrintEmpty(h), Print(rest), off);
      OwnHolds(doc, rest, end);
      EmptyHolds(doc, h, off);
      HoldsNone(doc);
      HoldsConcat(doc, if IsText(h) then [Range(end, end)] else [], Own(rest, end),
                  if IsText(h) then [Done] else [], OwnKids(rest));
    case Elem(h, kids, tail, rest) =>
      var inner, close, end := InnerAt(h, off), CloseAt(h, kids, off), EndAt(h, kids, tail, off);
      Places(doc, h, kids, tail, rest, off);
      OwnHolds(doc, kids, inner);
      OwnHolds(doc, rest, end);
      ElemHolds(doc, h, kids, off);
      HoldsNone(doc);
      HoldsConcat(doc, Own(kids, inner), Own(rest, end), OwnKids(kids), OwnKids(rest));
      HoldsConcat(doc, if IsText(h) then [Range(inner, close)] else [], Own(kids, inner) + Own(rest, end),
                  if IsText(h) then [kids] else [], OwnKids(kids) + OwnKids(rest));
  }

  lemma {:induction false} HoldsNone(doc: seq<byte>)
    ensures Holds(doc, [], [])
  {}

  lemma {:induction false} EmptyHolds(doc: seq<byte>, h: TagHead, off: nat)
    requires At(doc, PrintEmpty(h), off)
    ensures Holds(doc, [Range(EmptyEnd(h, off), EmptyEnd(h, off))], [Done])
  {
    ByteAt(doc, PrintEmpty(h), off, |PrintEmpty(h)| - 1);
  }

  lemma {:induction false} ElemHolds(doc: seq<byte>, h: TagHead, kids: Forest, off: nat)
    requires At(doc, PrintOpen(h), off) && At(doc, Print(kids), InnerAt(h, off))
    ensures Holds(doc, [Range(InnerAt(h, off), CloseAt(h, kids, off))], [kids])
  {
    hide Print;
    ByteAt(doc, PrintOpen(h), off, |PrintOpen(h)| - 1);
  }

  lemma {:induction false} OwnApart(f: Forest, off: nat)
    requires Pairable(f)
    ensures Apart(Own(f, off), off, off + |Print(f)|)
    decreases f
  {
    hide PrintOpen, PrintEmpty, PrintClose, PrintLeaf, IsText, Clean, Apart;
    match f
    case Done => ApartNone(off);
    case LeafNode(l, rest) =>
      OwnApart(rest, LeafEnd(l, off));
      ApartNone(off);
      ApartConcat([], Own(rest, LeafEnd(l, off)), off, off, LeafEnd(l, off), off + |Print(f)|);
      assert [] + Own(rest, LeafEnd(l, off)) == Own(rest, LeafEnd(l, off));
    case Empty(h, rest) =>
      var end := EmptyEnd(h, off);
      OwnApart(rest, end);
      ApartEmpty(h, off);
      ApartConcat(if IsText(h) then [Range(end, end)] else [], Own(rest, end), off, end, end, off + |Print(f)|);
    case Elem(h, kids, tail, rest) =>
      var inner, close, end := InnerAt(h, off), CloseAt(h, kids, off), EndAt(h, kids, tail, off);
      ElemSize(h, kids, tail, rest, off);
      OwnApart(rest, end);
      if IsText(h) {
        NoOwn(kids, inner);
        ApartOne(inner, close, off);
        ApartConcat([Range(inner, close)], Own(rest, end), off, close, end, off + |Print(f)|);
        assert [] + Own(rest, end) == Own(rest, end);
      } else {
        OwnApart(kids, inner);
        ApartNone(off);
        ApartConcat([], Own(kids, inner), off, off, inner, close);
        assert [] + Own(kids, inner) == Own(kids, inner);
        ApartConcat(Own(kids, inner), Own(rest, end), off, close, end, off + |Print(f)|);
        assert [] + (Own(kids, inner) + Own(rest, end)) == Own(kids, inner) + Own(rest, end);
      }
  }

  lemma {:induction false} ApartNone(off: nat)
    ensures Apart([], off, off)
  {}

  lemma {:induction false} ApartOne(start: nat, end: nat, off: nat)
    requires off < start <= end
    ensures Apart([Range(start, end)], off, end)
  {}

  lemma {:induction false} ApartEmpty(h: TagHead, off: nat)
    ensures off < EmptyEnd(h, off)
    ensures Apart(if IsText(h) then [Range(EmptyEnd(h, off), EmptyEnd(h, off))] else [], off, EmptyEnd(h, off))
  {}

  /** The ranges the pairing yields: each element's own printed content after a `>`, increasing and disjoint. */
  lemma {:induction false} RangesOfDocument(f: Forest)
    requires WellFormed(f) && Pairable(f)
    ensures var found := RangesOf(Print(f), Callbacks(f, 0), true, |Own(f, 0)|);
            && found.Some? && Holds(Print(f), found.value, OwnKids(f)) && Apart(found.value, 0, |Print(f)|)
  {
    hide RangesOf, Holds, Apart, WellFormed, Pairable, At;
    PairingExact(f);
    Whole(Print(f));
    OwnHolds(Print(f), f, 0);
    OwnApart(f, 0);
  }
}
