/**
 Well-formed markup as trees, printed to bytes, and the events the scan must find in the print.
 A forest is a list of siblings: each constructor holds the first item and the `rest`.
 */
module Markup {
  import opened Sequences
  import opened Scanner

  /** A qualified name; `w` says whether its prefix is bound to the WordprocessingML namespace. */
  datatype Name = Name(prefix: Option<seq<byte>>, local: seq<byte>, w: bool)

  /** ` key="value"`, with the white space before it and around `=` as written. */
  datatype Attr = Attr(lead: seq<byte>, key: seq<byte>, eq: seq<byte>, quote: byte, value: seq<byte>)

  datatype TagHead = TagHead(name: Name, attrs: seq<Attr>, tail: seq<byte>)

  datatype Leaf = Text(text: seq<byte>) | Comment(body: seq<byte>) | CData(body: seq<byte>) | PI(body: seq<byte>)

  datatype Forest =
    | Done
    | LeafNode(leaf: Leaf, rest: Forest)
    | Empty(head: TagHead, rest: Forest)
    | Elem(head: TagHead, kids: Forest, closeTail: seq<byte>, rest: Forest)

  // ----- well-formedness -----

  ghost predicate NameByte(b: byte) {
    48 <= b <= 57 || 65 <= b <= 90 || 97 <= b <= 122 || b == 45 || b == 46 || b == 95 || b >= 128
  }

  ghost predicate NCName(s: seq<byte>) {
    s != [] && forall i :: 0 <= i < |s| ==> NameByte(s[i])
  }

  ghost predicate GoodName(n: Name) {
    NCName(n.local) && (n.prefix.Some? ==> NCName(n.prefix.value))
  }

  ghost predicate AllSpace(s: seq<byte>) {
    forall i :: 0 <= i < |s| ==> Space(s[i])
  }

  ghost predicate Plain(s: seq<byte>) {
    forall i :: 0 <= i < |s| ==> !Quote(s[i]) && s[i] != GT && s[i] != LT
  }

  /** An attribute value may hold `>` and `/`, but neither `<` nor its own quote. */
  ghost predicate GoodAttr(a: Attr) {
    && a.lead != [] && AllSpace(a.lead)
    && a.key != [] && Plain(a.key) && Plain(a.eq)
    && Quote(a.quote) && a.quote !in a.value && LT !in a.value
  }

  ghost predicate GoodHead(h: TagHead) {
    GoodName(h.name) && (forall i :: 0 <= i < |h.attrs| ==> GoodAttr(h.attrs[i])) && AllSpace(h.tail)
  }

  ghost predicate GoodLeaf(l: Leaf) {
    match l
    case Text(t) => LT !in t
    case Comment(b) => forall i :: 0 <= i < |b| && b[i] == 45 ==> i + 1 < |b| && b[i + 1] != 45
    case CData(b) => forall i :: !At(b, CDATA_CLOSE, i)
    case PI(b) => forall i :: !At(b, PI_CLOSE, i)
  }

  ghost predicate WellFormed(f: Forest) {
    match f
    case Done => true
    case LeafNode(l, rest) => GoodLeaf(l) && WellFormed(rest)
    case Empty(h, rest) => GoodHead(h) && WellFormed(rest)
    case Elem(h, kids, tail, rest) => GoodHead(h) && AllSpace(tail) && WellFormed(kids) && WellFormed(rest)
  }

  // ----- printing -----

  function PrintName(n: Name): seq<byte> {
    if n.prefix.Some? then n.prefix.value + [COLON] + n.local else n.local
  }

  function PrintAttr(a: Attr): seq<byte> {
    (a.lead + a.key + a.eq) + ([a.quote] + (a.value + [a.quote]))
  }

  function PrintAttrs(attrs: seq<Attr>): seq<byte> {
    if attrs == [] then [] else PrintAttr(attrs[0]) + PrintAttrs(attrs[1..])
  }

  function PrintCore(h: TagHead): seq<byte> {
    PrintName(h.name) + PrintAttrs(h.attrs)
  }

  function PrintOpen(h: TagHead): seq<byte> {
    [LT] + (PrintCore(h) + h.tail) + [GT]
  }

  function PrintEmpty(h: TagHead): seq<byte> {
    [LT] + (PrintCore(h) + (h.tail + [SLASH])) + [GT]
  }

  function PrintClose(n: Name, tail: seq<byte>): seq<byte> {
    [LT] + ([SLASH] + (PrintName(n) + tail)) + [GT]
  }

  function PrintLeaf(l: Leaf): seq<byte> {
    match l
    case Text(t) => t
    case Comment(b) => COMMENT_OPEN + (b + COMMENT_CLOSE)
    case CData(b) => CDATA_OPEN + (b + CDATA_CLOSE)
    case PI(b) => PI_OPEN + (b + PI_CLOSE)
  }

  function Print(f: Forest): seq<byte> {
    match f
    case Done => []
    case LeafNode(l, rest) => PrintLeaf(l) + Print(rest)
    case Empty(h, rest) => PrintEmpty(h) + Print(rest)
    case Elem(h, kids, tail, rest) => PrintOpen(h) + (Print(kids) + (PrintClose(h.name, tail) + Print(rest)))
  }

  // ----- the events of a tree, in document order, with the byte spans of their tags -----

  /** The scan reports only tags whose name is ASCII. */
  function Event(n: Name, closing: bool, selfClosing: bool, start: nat, end: nat): seq<Tag> {
    if Ascii(PrintName(n)) then [Tag(n.local, closing, selfClosing, start, end)] else []
  }

  function Events(f: Forest, off: nat): seq<Tag> {
    match f
    case Done => []
    case LeafNode(l, rest) => Events(rest, off + |PrintLeaf(l)|)
    case Empty(h, rest) =>
      var end := off + |PrintEmpty(h)|;
      Event(h.name, false, true, off, end) + Events(rest, end)
    case Elem(h, kids, tail, rest) =>
      var inner := off + |PrintOpen(h)|;
      var close := inner + |Print(kids)|;
      var end := close + |PrintClose(h.name, tail)|;
      Event(h.name, false, false, off, inner) + Events(kids, inner)
      + Event(h.name, true, false, close, end) + Events(rest, end)
  }

  // ----- one tag -----

  lemma {:induction false} LStripNone(s: seq<byte>)
    requires s == [] || !Space(s[0])
    ensures LStrip(s) == s
  {}

  lemma {:induction false} RStripTail(core: seq<byte>, tail: seq<byte>)
    requires AllSpace(tail) && (core == [] || !Space(core[|core| - 1]))
    ensures RStrip(core + tail) == core
  {
    if tail == [] {
      assert core + tail == core;
    } else {
      var init := tail[..|tail| - 1];
      assert (core + tail)[..|core + tail| - 1] == core + init;
      RStripTail(core, init);
    }
  }

  lemma {:induction false} FirstWordIs(name: seq<byte>, rest: seq<byte>)
    requires forall i :: 0 <= i < |name| ==> !Space(name[i])
    requires rest == [] || Space(rest[0])
    ensures FirstWord(name + rest) == name
  {
    if name == [] {
      assert name + rest == rest;
    } else {
      assert (name + rest)[1..] == name[1..] + rest;
      FirstWordIs(name[1..], rest);
    }
  }

  lemma {:induction false} PrintNameBytes(n: Name)
    requires GoodName(n)
    ensures PrintName(n) != []
    ensures forall i :: 0 <= i < |PrintName(n)| ==> NameByte(PrintName(n)[i]) || PrintName(n)[i] == COLON
    ensures NameByte(PrintName(n)[0])
  {}

  lemma {:induction false} LocalOfPrint(n: Name)
    requires GoodName(n)
    ensures Local(PrintName(n)) == n.local
  {
    var p := PrintName(n);
    if n.prefix.Some? {
      var c := |n.prefix.value|;
      assert p[c] == COLON && p[c..c + 1] == [COLON];
      forall j | 0 <= j < c ensures !At(p, [COLON], j) {
        assert p[j] == n.prefix.value[j];
        NotAt(p, [COLON], j, 0);
      }
      FindIs(p, [COLON], 0, c);
      assert p[c + 1..] == n.local;
    } else {
      forall j ensures !At(p, [COLON], j) {
        NotAt(p, [COLON], j, 0);
      }
    }
  }

  lemma {:induction false} AttrsShape(attrs: seq<Attr>)
    requires forall i :: 0 <= i < |attrs| ==> GoodAttr(attrs[i])
    ensures var p := PrintAttrs(attrs); p == [] || (Space(p[0]) && Quote(p[|p| - 1]))
  {
    if attrs != [] {
      AttrsShape(attrs[1..]);
      var a := attrs[0];
      assert PrintAttr(a)[0] == a.lead[0];
      assert PrintAttr(a)[|PrintAttr(a)| - 1] == a.quote;
    }
  }

  lemma {:induction false} CoreShape(h: TagHead)
    requires GoodHead(h)
    ensures var c := PrintCore(h); c != [] && NameByte(c[0]) && !Space(c[|c| - 1]) && c[|c| - 1] != SLASH
    ensures FirstWord(PrintCore(h)) == PrintName(h.name)
  {
    PrintNameBytes(h.name);
    AttrsShape(h.attrs);
    FirstWordIs(PrintName(h.name), PrintAttrs(h.attrs));
  }

  function HeadOf(n: Name, closing: bool, selfClosing: bool): Option<Head> {
    if Ascii(PrintName(n)) then Some(Head(n.local, closing, selfClosing)) else None
  }

  lemma {:induction false} ParseOpen(h: TagHead)
    requires GoodHead(h)
    ensures ParseHead(PrintCore(h) + h.tail) == HeadOf(h.name, false, false)
  {
    var core := PrintCore(h);
    CoreShape(h);
    PrintNameBytes(h.name);
    LocalOfPrint(h.name);
    LStripNone(core + h.tail);
    RStripTail(core, h.tail);
  }

  lemma {:induction false} ParseEmpty(h: TagHead)
    requires GoodHead(h)
    ensures ParseHead(PrintCore(h) + (h.tail + [SLASH])) == HeadOf(h.name, false, true)
  {
    var core := PrintCore(h);
    var raw := core + (h.tail + [SLASH]);
    CoreShape(h);
    PrintNameBytes(h.name);
    LocalOfPrint(h.name);
    LStripNone(raw);
    assert RStrip(raw) == raw;
    assert raw[..|raw| - 1] == core + h.tail;
    RStripTail(core, h.tail);
  }

  lemma {:induction false} ParseClose(n: Name, tail: seq<byte>)
    requires GoodName(n) && AllSpace(tail)
    ensures ParseHead([SLASH] + (PrintName(n) + tail)) == HeadOf(n, true, false)
  {
    hide PrintName, Local;
    var p := PrintName(n);
    PrintNameBytes(n);
    LocalOfPrint(n);
    assert ([SLASH] + (p + tail))[1..] == p + tail;
    LStripNone(p + tail);
    RStripTail(p, tail);
    FirstWordIs(p, []);
    assert p + [] == p;
  }

  // ----- where a printed tag ends -----

  lemma {:induction false} TagEndPlain(xml: seq<byte>, i: nat, j: nat)
    requires i <= j <= |xml|
    requires forall k :: i <= k < j ==> !Quote(xml[k]) && xml[k] != GT
    ensures TagEnd(xml, i, None) == TagEnd(xml, j, None)
    decreases j - i
  {
    if i < j {
      TagEndPlain(xml, i + 1, j);
    }
  }

  lemma {:induction false} TagEndQuoted(xml: seq<byte>, i: nat, j: nat, q: byte)
    requires i <= j < |xml| && xml[j] == q
    requires forall k :: i <= k < j ==> xml[k] != q
    ensures TagEnd(xml, i, Some(q)) == TagEnd(xml, j + 1, None)
    decreases j - i
  {
    if i < j {
      TagEndQuoted(xml, i + 1, j, q);
    }
  }

  lemma {:induction false} TagEndOver(xml: seq<byte>, i: nat, s: seq<byte>)
    requires At(xml, s, i)
    requires forall k :: 0 <= k < |s| ==> !Quote(s[k]) && s[k] != GT
    ensures TagEnd(xml, i, None) == TagEnd(xml, i + |s|, None)
  {
    AtIndex(xml, s, i);
    forall k | i <= k < i + |s| ensures !Quote(xml[k]) && xml[k] != GT {
      assert xml[i + (k - i)] == s[k - i];
    }
    TagEndPlain(xml, i, i + |s|);
  }

  lemma {:induction false} TagEndValue(xml: seq<byte>, i: nat, q: byte, value: seq<byte>)
    requires Quote(q) && q !in value && At(xml, [q] + (value + [q]), i)
    ensures TagEnd(xml, i, None) == TagEnd(xml, i + |value| + 2, None)
  {
    var post := [q] + (value + [q]);
    var c := i + 1 + |value|;
    ByteAt(xml, post, i, 0);
    ByteAt(xml, post, i, 1 + |value|);
    AtIndex(xml, post, i);
    forall k | i + 1 <= k < c ensures xml[k] != q {
      assert xml[i + (k - i)] == post[k - i] == value[k - i - 1];
    }
    TagEndQuoted(xml, i + 1, c, q);
  }

  lemma {:induction false} TagEndAttr(xml: seq<byte>, i: nat, a: Attr)
    requires GoodAttr(a) && At(xml, PrintAttr(a), i)
    ensures TagEnd(xml, i, None) == TagEnd(xml, i + |PrintAttr(a)|, None)
  {
    hide At, TagEnd;
    var pre := a.lead + a.key + a.eq;
    AtConcat(xml, pre, [a.quote] + (a.value + [a.quote]), i);
    TagEndOver(xml, i, pre);
    TagEndValue(xml, i + |pre|, a.quote, a.value);
  }

  lemma {:induction false} TagEndAttrs(xml: seq<byte>, i: nat, attrs: seq<Attr>)
    requires forall k :: 0 <= k < |attrs| ==> GoodAttr(attrs[k])
    requires At(xml, PrintAttrs(attrs), i)
    ensures TagEnd(xml, i, None) == TagEnd(xml, i + |PrintAttrs(attrs)|, None)
    decreases |attrs|
  {
    if attrs != [] {
      AtConcat(xml, PrintAttr(attrs[0]), PrintAttrs(attrs[1..]), i);
      TagEndAttr(xml, i, attrs[0]);
      TagEndAttrs(xml, i + |PrintAttr(attrs[0])|, attrs[1..]);
    }
  }

  /** A `<` that opens no comment, CDATA section or processing instruction starts a tag. */
  lemma {:induction false} NextIsTag(xml: seq<byte>, off: nat)
    requires At(xml, [LT], off) && off + 1 < |xml| && (xml[off + 1] == SLASH || NameByte(xml[off + 1]))
    ensures Next(xml, off) == TagAt(xml, off)
  {
    NotSpecial(xml, off);
    FindIs(xml, [LT], off, off);
  }

  /** `<raw>` at `off`, where `raw` starts like a tag and no `>` in it stands outside quotes, is one tag. */
  lemma {:induction false} TagHere(xml: seq<byte>, off: nat, raw: seq<byte>)
    requires At(xml, [LT] + raw + [GT], off)
    requires raw != [] && (raw[0] == SLASH || NameByte(raw[0]))
    requires TagEnd(xml, off + 1, None) == TagEnd(xml, off + 1 + |raw|, None)
    ensures Next(xml, off) ==
            var end := off + |raw| + 2;
            var h := ParseHead(raw);
            if h.None? then Skip(end)
            else Emit(Tag(h.value.local, h.value.closing, h.value.selfClosing, off, end), end)
  {
    hide Next, ParseHead, NameByte;
    AtConcat(xml, [LT] + raw, [GT], off);
    AtConcat(xml, [LT], raw, off);
    ByteAt(xml, raw, off + 1, 0);
    ByteAt(xml, [GT], off + 1 + |raw|, 0);
    assert xml[off + 1..off + 1 + |raw|] == raw;
    NextIsTag(xml, off);
  }

  lemma {:induction false} NotSpecial(xml: seq<byte>, off: nat)
    requires off + 1 < |xml| && (xml[off + 1] == SLASH || NameByte(xml[off + 1]))
    ensures !At(xml, COMMENT_OPEN, off) && !At(xml, CDATA_OPEN, off) && !At(xml, PI_OPEN, off)
  {
    NotAt(xml, COMMENT_OPEN, off, 1);
    NotAt(xml, CDATA_OPEN, off, 1);
    NotAt(xml, PI_OPEN, off, 1);
  }

  function StepOf(n: Name, closing: bool, selfClosing: bool, start: nat, end: nat): Step {
    if Ascii(PrintName(n)) then Emit(Tag(n.local, closing, selfClosing, start, end), end) else Skip(end)
  }

  lemma {:induction false} RawAt(xml: seq<byte>, off: nat, raw: seq<byte>)
    requires At(xml, [LT] + raw + [GT], off)
    ensures At(xml, raw, off + 1)
  {
    AtConcat(xml, [LT] + raw, [GT], off);
    AtConcat(xml, [LT], raw, off);
  }

  lemma {:induction false} CoreEnd(xml: seq<byte>, i: nat, h: TagHead, post: seq<byte>)
    requires GoodHead(h) && At(xml, PrintCore(h) + post, i)
    requires forall k :: 0 <= k < |post| ==> !Quote(post[k]) && post[k] != GT
    ensures TagEnd(xml, i, None) == TagEnd(xml, i + |PrintCore(h) + post|, None)
  {
    hide At, TagEnd, PrintName;
    var name := PrintName(h.name);
    AtConcat(xml, PrintCore(h), post, i);
    AtConcat(xml, name, PrintAttrs(h.attrs), i);
    PrintNameBytes(h.name);
    TagEndOver(xml, i, name);
    TagEndAttrs(xml, i + |name|, h.attrs);
    TagEndOver(xml, i + |PrintCore(h)|, post);
  }

  lemma {:induction false} NextOpen(xml: seq<byte>, off: nat, h: TagHead)
    requires GoodHead(h) && At(xml, PrintOpen(h), off)
    ensures Next(xml, off) == StepOf(h.name, false, false, off, off + |PrintOpen(h)|)
  {
    hide At, TagEnd, Next, ParseHead, PrintCore;
    var raw := PrintCore(h) + h.tail;
    RawAt(xml, off, raw);
    CoreShape(h);
    CoreEnd(xml, off + 1, h, h.tail);
    TagHere(xml, off, raw);
    ParseOpen(h);
  }

  lemma {:induction false} NextEmpty(xml: seq<byte>, off: nat, h: TagHead)
    requires GoodHead(h) && At(xml, PrintEmpty(h), off)
    ensures Next(xml, off) == StepOf(h.name, false, true, off, off + |PrintEmpty(h)|)
  {
    hide At, TagEnd, Next, ParseHead, PrintCore;
    var raw := PrintCore(h) + (h.tail + [SLASH]);
    RawAt(xml, off, raw);
    CoreShape(h);
    CoreEnd(xml, off + 1, h, h.tail + [SLASH]);
    TagHere(xml, off, raw);
    ParseEmpty(h);
  }

  lemma {:induction false} CloseRaw(n: Name, tail: seq<byte>)
    requires GoodName(n) && AllSpace(tail)
    ensures var raw := [SLASH] + (PrintName(n) + tail);
            forall k :: 0 <= k < |raw| ==> !Quote(raw[k]) && raw[k] != GT
  {
    PrintNameBytes(n);
  }

  lemma {:induction false} NextClose(xml: seq<byte>, off: nat, n: Name, tail: seq<byte>)
    requires GoodName(n) && AllSpace(tail) && At(xml, PrintClose(n, tail), off)
    ensures Next(xml, off) == StepOf(n, true, false, off, off + |PrintClose(n, tail)|)
  {
    hide At, TagEnd, Next, ParseHead, PrintName;
    var raw := [SLASH] + (PrintName(n) + tail);
    RawAt(xml, off, raw);
    CloseRaw(n, tail);
    TagEndOver(xml, off + 1, raw);
    TagHere(xml, off, raw);
    ParseClose(n, tail);
  }

  // ----- text, comments, CDATA sections and processing instructions -----

  lemma {:induction false} NoTagIn(xml: seq<byte>, i: nat, j: nat)
    requires i <= j <= |xml| && forall k :: i <= k < j ==> xml[k] != LT
    ensures Next(xml, i) == Next(xml, j)
  {
    forall k | i <= k < j ensures !At(xml, [LT], k) {
      NotAt(xml, [LT], k, 0);
    }
    var a, b := Find(xml, [LT], i), Find(xml, [LT], j);
    assert a == b;
  }

  /** An occurrence inside a part that stands at `at` is an occurrence in the part. */
  lemma {:induction false} AtWithin(s: seq<byte>, part: seq<byte>, at: int, pat: seq<byte>, i: int)
    requires At(s, part, at) && 0 <= i && i + |pat| <= |part|
    ensures At(s, pat, at + i) <==> At(part, pat, i)
  {
    AtIndex(s, part, at);
    var cut, own := s[at + i..at + i + |pat|], part[i..i + |pat|];
    forall k | 0 <= k < |pat| ensures cut[k] == own[k] {
      assert s[at + (i + k)] == part[i + k];
    }
    assert cut == own;
  }

  /** The first `close` in `body + close` is the final one. */
  lemma {:induction false} PassOverBody(xml: seq<byte>, off: nat, open: seq<byte>, body: seq<byte>, close: seq<byte>)
    requires At(xml, open + (body + close), off)
    requires close != [] && forall i :: 0 <= i < |body| ==> !At(body + close, close, i)
    ensures PassOver(xml, off, open, close) == Skip(off + |open + (body + close)|)
  {
    var at := off + |open|;
    AtConcat(xml, open, body + close, off);
    AtConcat(xml, body, close, at);
    forall j | at <= j < at + |body| ensures !At(xml, close, j) {
      AtWithin(xml, body + close, at, close, j - at);
    }
    FindIs(xml, close, at, at + |body|);
  }

  lemma {:induction false} BodyEnds(l: Leaf)
    requires GoodLeaf(l) && !l.Text?
    ensures var close := if l.Comment? then COMMENT_CLOSE else if l.CData? then CDATA_CLOSE else PI_CLOSE;
            forall i :: 0 <= i < |l.body| ==> !At(l.body + close, close, i)
  {
    var close := if l.Comment? then COMMENT_CLOSE else if l.CData? then CDATA_CLOSE else PI_CLOSE;
    var b := l.body;
    forall i | 0 <= i < |b| ensures !At(b + close, close, i) {
      if l.Comment? {
        NotAt(b + close, close, i, if b[i] != 45 then 0 else 1);
      } else if i + |close| <= |b| {
        AtWithin(b + close, b, 0, close, i);
      } else {
        NotAt(b + close, close, i, |close| - 1);
      }
    }
  }

  lemma {:induction false} NextLeaf(xml: seq<byte>, off: nat, l: Leaf)
    requires GoodLeaf(l) && !l.Text? && At(xml, PrintLeaf(l), off)
    ensures Next(xml, off) == Skip(off + |PrintLeaf(l)|)
  {
    BodyEnds(l);
    var open := if l.Comment? then COMMENT_OPEN else if l.CData? then CDATA_OPEN else PI_OPEN;
    var close := if l.Comment? then COMMENT_CLOSE else if l.CData? then CDATA_CLOSE else PI_CLOSE;
    AtConcat(xml, open, l.body + close, off);
    PassOverBody(xml, off, open, l.body, close);
    OpensHere(xml, off, open);
  }

  lemma {:induction false} OpensHere(xml: seq<byte>, off: nat, open: seq<byte>)
    requires open == COMMENT_OPEN || open == CDATA_OPEN || open == PI_OPEN
    requires At(xml, open, off)
    ensures Find(xml, [LT], off) == off
    ensures open == COMMENT_OPEN || !At(xml, COMMENT_OPEN, off)
    ensures open != PI_OPEN || !At(xml, CDATA_OPEN, off)
  {
    AtIndex(xml, open, off);
    assert xml[off + 0] == open[0] == LT && xml[off + 1] == open[1];
    AtIndex(xml, [LT], off);
    FindIs(xml, [LT], off, off);
    if off + 4 <= |xml| {
      AtIndex(xml, COMMENT_OPEN, off);
      if At(xml, COMMENT_OPEN, off) {
        assert xml[off + 1] == COMMENT_OPEN[1] && xml[off + 2] == COMMENT_OPEN[2];
        if open == CDATA_OPEN {
          assert xml[off + 2] == open[2];
        }
      }
    }
    if At(xml, CDATA_OPEN, off) {
      AtIndex(xml, CDATA_OPEN, off);
      assert xml[off + 1] == CDATA_OPEN[1];
    }
  }

  // ----- the scan undoes the print -----

  lemma {:induction false} ScanStep(xml: seq<byte>, off: nat, n: Name, closing: bool, selfClosing: bool, end: nat)
    requires Next(xml, off) == StepOf(n, closing, selfClosing, off, end)
    ensures Scan(xml, off) == Event(n, closing, selfClosing, off, end) + Scan(xml, end)
  {}

  /** The four parts of a printed element, each at its place. */
  lemma {:induction false} ElemAt(xml: seq<byte>, h: TagHead, kids: Forest, tail: seq<byte>, rest: Forest, off: nat)
    requires At(xml, Print(Elem(h, kids, tail, rest)), off)
    ensures var inner := off + |PrintOpen(h)|;
            var close := inner + |Print(kids)|;
            && At(xml, PrintOpen(h), off) && At(xml, Print(kids), inner)
            && At(xml, PrintClose(h.name, tail), close)
            && At(xml, Print(rest), close + |PrintClose(h.name, tail)|)
  {
    hide At, PrintOpen, PrintClose;
    var a, b, c, d := PrintOpen(h), Print(kids), PrintClose(h.name, tail), Print(rest);
    AtConcat(xml, a, b + (c + d), off);
    AtConcat(xml, b, c + d, off + |a|);
    AtConcat(xml, c, d, off + |a| + |b|);
  }

  lemma {:induction false} ScanText(xml: seq<byte>, off: nat, text: seq<byte>)
    requires LT !in text && At(xml, text, off)
    ensures Scan(xml, off) == Scan(xml, off + |text|)
  {
    hide Scan, Next;
    var next := off + |text|;
    AtIndex(xml, text, off);
    forall k | off <= k < next ensures xml[k] != LT {
      assert xml[off + (k - off)] == text[k - off];
    }
    NoTagIn(xml, off, next);
    SameNext(xml, off, next);
  }

  lemma {:induction false} SameNext(xml: seq<byte>, i: nat, j: nat)
    requires Next(xml, i) == Next(xml, j)
    ensures Scan(xml, i) == Scan(xml, j)
  {}

  lemma {:induction false} ScanLeaf(xml: seq<byte>, off: nat, l: Leaf)
    requires GoodLeaf(l) && At(xml, PrintLeaf(l), off)
    ensures Scan(xml, off) == Scan(xml, off + |PrintLeaf(l)|)
  {
    hide Scan, Next, TagEnd, ParseHead, PrintCore, PrintName;
    if l.Text? {
      ScanText(xml, off, l.text);
    } else {
      NextLeaf(xml, off, l);
      ScanSkip(xml, off, off + |PrintLeaf(l)|);
    }
  }

  lemma {:induction false} ScanSkip(xml: seq<byte>, off: nat, next: nat)
    requires Next(xml, off) == Skip(next)
    ensures Scan(xml, off) == Scan(xml, next)
  {}

  lemma {:induction false} ScanOpenClose(xml: seq<byte>, h: TagHead, kids: Forest, tail: seq<byte>, rest: Forest, off: nat)
    requires GoodHead(h) && AllSpace(tail) && At(xml, Print(Elem(h, kids, tail, rest)), off)
    ensures var inner := off + |PrintOpen(h)|;
            var close := inner + |Print(kids)|;
            var end := close + |PrintClose(h.name, tail)|;
            && Scan(xml, off) == Event(h.name, false, false, off, inner) + Scan(xml, inner)
            && Scan(xml, close) == Event(h.name, true, false, close, end) + Scan(xml, end)
  {
    hide Scan, Next, At, Event, StepOf, PrintOpen, PrintClose, Print;
    var inner := off + |PrintOpen(h)|;
    var close := inner + |Print(kids)|;
    ElemAt(xml, h, kids, tail, rest, off);
    NextOpen(xml, off, h);
    ScanStep(xml, off, h.name, false, false, inner);
    NextClose(xml, close, h.name, tail);
    ScanStep(xml, close, h.name, true, false, close + |PrintClose(h.name, tail)|);
  }

  lemma {:induction false} Regroup<T>(a: seq<T>, b: seq<T>, c: seq<T>, d: seq<T>, e: seq<T>)
    ensures a + (b + (c + (d + e))) == a + b + c + d + e
  {}

  lemma {:induction false} ScanForest(xml: seq<byte>, f: Forest, off: nat)
    requires WellFormed(f) && At(xml, Print(f), off)
    ensures Scan(xml, off) == Events(f, off) + Scan(xml, off + |Print(f)|)
  {
    hide Scan, Next, At, Event, GoodHead, GoodLeaf, AllSpace, PrintOpen, PrintEmpty, PrintClose, PrintLeaf;
    match f
    case Done =>
    case LeafNode(l, rest) =>
      AtConcat(xml, PrintLeaf(l), Print(rest), off);
      ScanLeaf(xml, off, l);
      ScanForest(xml, rest, off + |PrintLeaf(l)|);
    case Empty(h, rest) =>
      var end := off + |PrintEmpty(h)|;
      AtConcat(xml, PrintEmpty(h), Print(rest), off);
      NextEmpty(xml, off, h);
      ScanStep(xml, off, h.name, false, true, end);
      ScanForest(xml, rest, end);
    case Elem(h, kids, tail, rest) =>
      var inner := off + |PrintOpen(h)|;
      var close := inner + |Print(kids)|;
      var end := close + |PrintClose(h.name, tail)|;
      ElemAt(xml, h, kids, tail, rest, off);
      ScanOpenClose(xml, h, kids, tail, rest, off);
      ScanForest(xml, kids, inner);
      ScanForest(xml, rest, end);
      Regroup(Event(h.name, false, false, off, inner), Events(kids, inner), Event(h.name, true, false, close, end),
              Events(rest, end), Scan(xml, off + |Print(f)|));
  }

  /**
   Scanning a printed document gives exactly its elements' open, close and self-closing tags, in document order,
   each with its own byte span, whatever text, comments, CDATA, processing instructions and attribute values hold.
   */
  lemma {:induction false} ScanUndoesPrint(f: Forest)
    requires WellFormed(f)
    ensures Scan(Print(f), 0) == Events(f, 0)
  {
    hide Scan, Print, Events;
    var xml := Print(f);
    AtIndex(xml, xml, 0);
    ScanForest(xml, f, 0);
    ScanAtEnd(xml);
  }

  lemma {:induction false} ScanAtEnd(xml: seq<byte>)
    ensures Scan(xml, |xml|) == []
  {}
}
