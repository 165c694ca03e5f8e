/** Documents of one paragraph around one text, and libraries that report them as they are. */
module SampleDocs {
  import opened Sequences
  import opened Scanner
  import opened Markup
  import opened Locator
  import opened LocatorTrees
  import opened LocatorResults
  import opened LocatorTables
  import opened LocatorDirects
  import opened TextRanges
  import opened TextPairing
  import opened Queries
  import opened Target
  import opened TargetFacts
  import opened PredictedEdit

  const R_LOCAL: seq<byte> := [114]

  // ----- the documents -----

  function TextNode(s: string): Forest {
    Node(T_LOCAL, PlainText(Utf8(s)), Done)
  }

  /** A text in an element of the given name: a run, or a content control. */
  function Wrapping(mid: seq<byte>, s: string): Forest {
    Node(mid, TextNode(s), Done)
  }

  function ParaOf(mid: seq<byte>, s: string): Forest {
    Node(PARA, Wrapping(mid, s), Done)
  }

  /** `<body><p><r><t>...</t></r></p></body>` around a text, or the same with `sdt` in place of `r`. */
  function Doc(mid: seq<byte>, s: string): Forest {
    Node(BODY, ParaOf(mid, s), Done)
  }

  predicate Middle(mid: seq<byte>) {
    mid == R_LOCAL || mid == SDT
  }

  /** What the text may be: then its bytes need no escape. */
  predicate Letters(s: string) {
    s != "" && QueryChars(s)
  }

  lemma {:induction false} NameBytes()
    ensures Utf8("r") == R_LOCAL && Utf8("t") == T_LOCAL
  {
    Utf8One('r');
    Utf8One('t');
  }

  lemma {:induction false} SdtBytes()
    ensures Utf8("sdt") == SDT
  {
    Utf8Concat("s", "dt");
    Utf8Concat("d", "t");
    Utf8One('s');
    Utf8One('d');
    Utf8One('t');
    assert "sdt" == "s" + "dt" && "dt" == "d" + "t";
  }

  function StartTag(local: seq<byte>): seq<byte> {
    [LT] + local + [GT]
  }

  function EndTag(local: seq<byte>): seq<byte> {
    [LT, SLASH] + local + [GT]
  }

  /** An element without prefix and attributes around something well formed. */
  lemma {:induction false} NodeFacts(local: seq<byte>, kids: Forest)
    requires NCName(local) && Ascii(local) && WellFormed(kids)
    ensures var f := Node(local, kids, Done);
            && WellFormed(f) && Seen(Bare(local))
            && Print(f) == StartTag(local) + Print(kids) + EndTag(local)
            && (forall at: nat :: InnerAt(Bare(local), at) == at + |local| + 2)
  {
    var h := Bare(local);
    assert PrintAttrs(h.attrs) == [];
    assert PrintCore(h) == local && PrintCore(h) + h.tail == local;
    assert PrintOpen(h) == [LT] + local + [GT];
    assert PrintName(h.name) + [] == local;
    assert PrintClose(h.name, []) == [LT, SLASH] + local + [GT];
    PrintElem(h, kids, [], Done);
    assert Print(Done) == [];
  }

  ghost predicate Fine(f: Forest, s: string) {
    WellFormed(f) && Pairable(f) && OwnKids(f) == [PlainText(Utf8(s))]
  }

  lemma {:induction false} PlainFine(s: string)
    requires Letters(s)
    ensures var f := PlainText(Utf8(s)); WellFormed(f) && Pairable(f) && !HasText(f) && OwnKids(f) == []
  {
    QueryBytes(s);
    PrintText(Utf8(s));
    assert WellFormed(Done) && Pairable(Done) && !HasText(Done);
  }

  lemma {:induction false} TextFine(s: string)
    requires Letters(s)
    ensures Fine(TextNode(s), s)
  {
    hide PlainText, Print;
    PlainFine(s);
    NodeFacts(T_LOCAL, PlainText(Utf8(s)));
    assert Pairable(Done) && OwnKids(Done) == [];
    assert [PlainText(Utf8(s))] + ([] + []) == [PlainText(Utf8(s))];
    assert PrintAttrs(Bare(T_LOCAL).attrs) == [];
    assert PrintCore(Bare(T_LOCAL)) == T_LOCAL;
    assert Clean(Bare(T_LOCAL));
  }

  lemma {:induction false} NodeFine(local: seq<byte>, kids: Forest, s: string)
    requires NCName(local) && Ascii(local) && local != T_LOCAL && Fine(kids, s)
    ensures Fine(Node(local, kids, Done), s)
  {
    hide PlainText;
    NodeFacts(local, kids);
    assert Pairable(Done) && OwnKids(Done) == [];
    assert !IsText(Bare(local));
    assert [] + ([PlainText(Utf8(s))] + []) == [PlainText(Utf8(s))];
  }

  lemma {:induction false} DocFine(mid: seq<byte>, s: string)
    requires Middle(mid) && Letters(s)
    ensures Fine(TextNode(s), s) && Fine(Wrapping(mid, s), s) && Fine(ParaOf(mid, s), s) && Fine(Doc(mid, s), s)
  {
    hide Fine;
    TextFine(s);
    NodeFine(mid, TextNode(s), s);
    NodeFine(PARA, Wrapping(mid, s), s);
    NodeFine(BODY, ParaOf(mid, s), s);
  }

  lemma {:induction false} FineMeans(f: Forest, s: string)
    requires Fine(f, s)
    ensures WellFormed(f) && Pairable(f) && OwnKids(f) == [PlainText(Utf8(s))] && TextCount(f) == 1
  {}

  lemma {:induction false} InnerOf(local: seq<byte>, at: nat)
    ensures InnerAt(Bare(local), at) == at + |local| + 2
  {
    assert PrintAttrs(Bare(local).attrs) == [];
    assert PrintCore(Bare(local)) + Bare(local).tail == local;
  }

  /** The one paragraph of the document. */
  function ThePara(mid: seq<byte>, s: string): Para {
    Para(Span(6, 9, EndAt(Bare(PARA), Wrapping(mid, s), [], 6), false), Wrapping(mid, s), 9, 0)
  }

  lemma {:induction false} DocParas(mid: seq<byte>, s: string)
    requires Middle(mid) && Letters(s)
    ensures Paragraphs(Doc(mid, s)) == [ThePara(mid, s)]
  {
    hide PlainText, Print, InnerAt, EndAt, OwnKids;
    InnerOf(BODY, 0);
    InnerOf(PARA, 6);
    assert BoundBody(Doc(mid, s), 0, 0) == Some((ParaOf(mid, s), 6, 0));
    assert Paras(Done, EndAt(Bare(PARA), Wrapping(mid, s), [], 6), TextCount(Wrapping(mid, s))) == [];
    assert Paras(ParaOf(mid, s), 6, 0) == [ThePara(mid, s)];
  }

  /** What stands before the text, and after it. */
  function Lead(mid: seq<byte>): seq<byte> {
    StartTag(BODY) + (StartTag(PARA) + (StartTag(mid) + (StartTag(T_LOCAL) + [])))
  }

  function Trail(mid: seq<byte>): seq<byte> {
    ((([] + EndTag(T_LOCAL)) + EndTag(mid)) + EndTag(PARA)) + EndTag(BODY)
  }

  lemma {:induction false} Wrapped(local: seq<byte>, kids: Forest, a: seq<byte>, q: seq<byte>, b: seq<byte>)
    requires NCName(local) && Ascii(local) && WellFormed(kids) && Print(kids) == a + q + b
    ensures Print(Node(local, kids, Done)) == (StartTag(local) + a) + q + (b + EndTag(local))
  {
    hide Print, StartTag, EndTag;
    NodeFacts(local, kids);
  }

  lemma {:induction false} DocBytes(mid: seq<byte>, s: string)
    requires Middle(mid) && Letters(s)
    ensures Print(Doc(mid, s)) == Lead(mid) + Utf8(s) + Trail(mid) && |Lead(mid)| == 14 + |mid|
  {
    hide Print, PlainText, StartTag, EndTag, Fine, Utf8;
    PlainFine(s);
    DocFine(mid, s);
    FineMeans(TextNode(s), s);
    FineMeans(Wrapping(mid, s), s);
    FineMeans(ParaOf(mid, s), s);
    PrintText(Utf8(s));
    var q := Utf8(s);
    assert [] + q + [] == q;
    Wrapped(T_LOCAL, PlainText(q), [], q, []);
    Wrapped(mid, TextNode(s), StartTag(T_LOCAL) + [], q, [] + EndTag(T_LOCAL));
    Wrapped(PARA, Wrapping(mid, s), StartTag(mid) + (StartTag(T_LOCAL) + []), q, ([] + EndTag(T_LOCAL)) + EndTag(mid));
    Wrapped(BODY, ParaOf(mid, s), StartTag(PARA) + (StartTag(mid) + (StartTag(T_LOCAL) + [])), q,
            (([] + EndTag(T_LOCAL)) + EndTag(mid)) + EndTag(PARA));
    HeadSize(mid);
  }

  lemma {:induction false} HeadSize(mid: seq<byte>)
    ensures |Lead(mid)| == 14 + |mid|
  {}

  /** Neither `a` nor `z` stands around the text, which a tag follows. */
  lemma {:induction false} AroundText(mid: seq<byte>)
    requires Middle(mid)
    ensures forall c: byte :: c == 97 || c == 122 ==> c !in Lead(mid) && c !in Trail(mid)
    ensures Trail(mid) != [] && Trail(mid)[0] == LT
  {
    assert forall c: byte :: c == 97 || c == 122 ==> c !in BODY && c !in mid && c !in T_LOCAL && c !in PARA;
    assert forall c: byte, local: seq<byte> :: c >= 97 && c !in local ==> c !in StartTag(local) && c !in EndTag(local);
    assert Trail(mid)[0] == EndTag(T_LOCAL)[0];
  }

  /** A pattern that can neither begin before the middle part nor run past it occurs where it occurs there. */
  lemma {:induction false} AtInside<T>(a: seq<T>, m: seq<T>, b: seq<T>, q: seq<T>, j: int)
    requires q != [] && q[0] !in a && q[0] !in b && (b == [] || b[0] !in q)
    ensures At(a + m + b, q, j) <==> At(m, q, j - |a|)
  {
    var s, i := a + m + b, j - |a|;
    assert forall k :: 0 <= k < |s| ==>
             s[k] == if k < |a| then a[k] else if k < |a| + |m| then m[k - |a|] else b[k - |a| - |m|];
    if i < 0 || |m| <= i {
      NotAt(s, q, j, 0);
    } else if |m| < i + |q| {
      NotAt(s, q, j, |m| - i);
    }
    if 0 <= i && i + |q| <= |m| {
      assert s[j..j + |q|] == m[i..i + |q|];
    }
  }

  lemma {:induction false} CountInside<T>(a: seq<T>, m: seq<T>, b: seq<T>, q: seq<T>)
    requires q != [] && q[0] !in a && q[0] !in b && (b == [] || b[0] !in q)
    ensures Count(a + m + b, q, 0) == 1 <==> Count(m, q, 0) == 1
    ensures Find(m, q, 0) >= 0 ==> Find(a + m + b, q, 0) == |a| + Find(m, q, 0)
  {
    var s, n := a + m + b, |a|;
    forall j ensures At(s, q, j) <==> At(m, q, j - n) {
      AtInside(a, m, b, q, j);
    }
    CountOne(s, q);
    CountOne(m, q);
    var r := Find(m, q, 0);
    if r >= 0 {
      FindIs(s, q, 0, n + r);
      assert forall j :: At(m, q, j) ==> At(s, q, n + j) by { Back(s, m, q, n); }
    } else {
      assert forall j :: At(s, q, j) ==> At(m, q, j - n);
    }
  }

  lemma {:induction false} Back<T>(s: seq<T>, m: seq<T>, q: seq<T>, n: nat)
    requires forall j :: At(s, q, j) <==> At(m, q, j - n)
    ensures forall j :: At(m, q, j) ==> At(s, q, n + j)
  {
    forall j | At(m, q, j) ensures At(s, q, n + j) {
      assert At(m, q, (n + j) - n);
    }
  }

  /** Digits and Latin letters are their own bytes. */
  lemma {:induction false} OwnBytes(s: string)
    requires forall i :: 0 <= i < |s| ==> Alnum(s[i])
    ensures |Utf8(s)| == |s| && forall i :: 0 <= i < |s| ==> Utf8(s)[i] == s[i] as int
  {
    if s != [] {
      OwnBytes(s[1..]);
    }
  }

  // ----- the libraries -----

  /** Libraries that report the document as it is. */
  function LibOf(mid: seq<byte>, s: string): Library {
    Library(_ => Some(Doc(mid, s)), _ => (Callbacks(Doc(mid, s), 0), true), f => if f == PlainText(Utf8(s)) then s else "",
            x => x)
  }

  lemma {:induction false} LongName(s: string)
    requires QueryChars(s) && |s| > 1
    ensures |Utf8(s)| > 1
  {
    QueryBytes(s);
  }

  lemma {:induction false} ShortNamesUnlocked(local: seq<byte>)
    requires |local| == 1
    ensures local !in OPAQUE_LOCALS && local !in FIELD_LOCALS && local !in REVISION_LOCALS && local !in SDT_LOCALS
  {
    hide OPAQUE_LOCALS, FIELD_LOCALS, REVISION_LOCALS, SDT_LOCALS;
    if local in OPAQUE_LOCALS {
      OpaqueNames(local);
    }
    if local in FIELD_LOCALS {
      FieldNames(local);
    }
    if local in REVISION_LOCALS {
      RevisionNames(local);
    }
    if local in SDT_LOCALS {
      SdtNames(local);
    }
  }

  lemma {:induction false} OpaqueNames(n: seq<byte>)
    requires n in OPAQUE_LOCALS
    ensures |n| > 1
  {
    hide Utf8;
    LongName("drawing");
    LongName("pict");
    LongName("object");
    LongName("fldSimple");
    LongName("oMath");
    LongName("oMathPara");
    LongName("sdt");
    LongName("smartTag");
    LongName("proofErr");
    LongName("txbxContent");
    LongName("AlternateContent");
  }

  lemma {:induction false} FieldNames(n: seq<byte>)
    requires n in FIELD_LOCALS
    ensures |n| > 1
  {
    hide Utf8;
    LongName("fldChar");
    LongName("instrText");
    LongName("fldSimple");
  }

  lemma {:induction false} RevisionNames(n: seq<byte>)
    requires n in REVISION_LOCALS
    ensures |n| > 1
  {
    hide Utf8;
    LongName("ins");
    LongName("del");
    LongName("moveFrom");
    LongName("moveTo");
    LongName("delText");
  }

  lemma {:induction false} SdtNames(n: seq<byte>)
    requires n in SDT_LOCALS
    ensures |n| > 1
  {
    hide Utf8;
    LongName("sdt");
  }

  lemma {:induction false} Unlocked(s: string, locals: set<seq<byte>>)
    requires R_LOCAL !in locals && T_LOCAL !in locals
    ensures !HasLocal(Wrapping(R_LOCAL, s), locals)
  {
    assert !HasLocal(PlainText(Utf8(s)), locals);
    assert !HasLocal(TextNode(s), locals);
  }

  lemma {:induction false} NoFlags(s: string)
    ensures !ParagraphFlags(Wrapping(R_LOCAL, s)).Any()
  {
    hide HasLocal, OPAQUE_LOCALS, FIELD_LOCALS, REVISION_LOCALS, SDT_LOCALS;
    ShortNamesUnlocked(R_LOCAL);
    ShortNamesUnlocked(T_LOCAL);
    Unlocked(s, OPAQUE_LOCALS);
    Unlocked(s, FIELD_LOCALS);
    Unlocked(s, REVISION_LOCALS);
    Unlocked(s, SDT_LOCALS);
  }

  lemma {:induction false} ControlLocks(s: string)
    ensures ParagraphFlags(Wrapping(SDT, s)).Any()
  {
    hide Utf8, OPAQUE_LOCALS, FIELD_LOCALS, REVISION_LOCALS;
    SdtBytes();
    assert SDT in SDT_LOCALS;
    assert HasLocal(Wrapping(SDT, s), SDT_LOCALS);
  }

  // ----- the ranges, the located paragraph and what is tested -----

  lemma {:induction false} RangeThrough(local: seq<byte>, kids: Forest, at: nat, r: Range)
    requires local != T_LOCAL && Own(kids, at + |local| + 2) == [r]
    ensures Own(Node(local, kids, Done), at) == [r]
  {
    hide Own, InnerAt, EndAt, CloseAt;
    InnerOf(local, at);
    OwnElem(Bare(local), kids, [], Done, at);
    NothingOwned(EndAt(Bare(local), kids, [], at));
    assert !IsText(Bare(local));
  }

  lemma {:induction false} NothingOwned(at: nat)
    ensures Own(Done, at) == []
  {}

  lemma {:induction false} TextRange(s: string, at: nat)
    ensures Own(TextNode(s), at) == [Range(at + 3, at + 3 + |Utf8(s)|)]
  {
    hide Own, InnerAt, EndAt, PlainText, Utf8;
    InnerOf(T_LOCAL, at);
    PrintText(Utf8(s));
    OwnElem(Bare(T_LOCAL), PlainText(Utf8(s)), [], Done, at);
    NothingOwned(EndAt(Bare(T_LOCAL), PlainText(Utf8(s)), [], at));
    assert IsText(Bare(T_LOCAL));
  }

  /** Where the text stands. */
  function TheRange(mid: seq<byte>, s: string): Range {
    Range(14 + |mid|, 14 + |mid| + |Utf8(s)|)
  }

  lemma {:induction false} DocRanges(mid: seq<byte>, s: string)
    requires Middle(mid) && Letters(s)
    ensures Own(Doc(mid, s), 0) == [TheRange(mid, s)]
  {
    hide Own;
    TextRange(s, 11 + |mid|);
    RangeThrough(mid, TextNode(s), 9, TheRange(mid, s));
    RangeThrough(PARA, Wrapping(mid, s), 6, TheRange(mid, s));
    RangeThrough(BODY, ParaOf(mid, s), 0, TheRange(mid, s));
  }

  lemma {:induction false} DocLocated(mid: seq<byte>, s: string)
    requires Middle(mid) && Letters(s)
    ensures var located := Locate(Scan(Print(Doc(mid, s)), 0));
            located.Some? && |Directs(located.value)| == 1 && Directs(located.value)[0].id == Some(0)
  {
    hide Scan, Locate, Print, Fine, Directs, InnerAt, CloseAt, EndAt, Part, SeenIn, TopSpans;
    DocFine(mid, s);
    FineMeans(Doc(mid, s), s);
    NodeSeen(BODY);
    NodeSeen(PARA);
    var f := Doc(mid, s);
    assert ProperBody(f);
    var (kids, at) := BodyOf(f, 0).value;
    assert kids == ParaOf(mid, s) && RightChildren(Done) && !HasParaChild(Done);
    assert RightChildren(kids);
    assert ParaChildren(Done, EndAt(Bare(PARA), Wrapping(mid, s), [], at)) == [];
    assert |ParaChildren(kids, at)| == 1;
    DirectsAreChildren(f);
  }

  lemma {:induction false} NodeSeen(local: seq<byte>)
    requires Ascii(local)
    ensures Seen(Bare(local))
  {}

  lemma {:induction false} MiddleIs(a: seq<byte>, q: seq<byte>, b: seq<byte>)
    ensures (a + q + b)[|a|..|a| + |q|] == q
  {}

  /** What the candidates and probes of the document are tested against. */
  ghost predicate ViewIs(mid: seq<byte>, s: string, others: seq<string>, v: View) {
    && v.lib == LibOf(mid, s) && v.doc == Print(Doc(mid, s)) && v.texts == [s] && v.paraTexts == [s]
    && v.others == others
    && v.ranges == [TheRange(mid, s)]
  }

  lemma {:induction false} TheView(mid: seq<byte>, s: string, others: seq<string>)
    requires Middle(mid) && Letters(s)
    ensures var (calls, parsed) := LibOf(mid, s).calls(Print(Doc(mid, s)));
            && RangesOf(Print(Doc(mid, s)), calls, parsed, TextCount(Doc(mid, s))) == Some(Own(Doc(mid, s), 0))
            && ViewIs(mid, s, others, ViewOf(LibOf(mid, s), Print(Doc(mid, s)), others, Doc(mid, s), Own(Doc(mid, s), 0)))
  {
    hide Print, Fine, Own, Callbacks, RangesOf, Paragraphs, OwnKids, Pairable, PlainText;
    DocFine(mid, s);
    FineMeans(Doc(mid, s), s);
    FineMeans(Wrapping(mid, s), s);
    DocRanges(mid, s);
    DocParas(mid, s);
    PairingExact(Doc(mid, s));
    OwnCount(Doc(mid, s), 0);
    var lib := LibOf(mid, s);
    var texts := Texts(lib, [PlainText(Utf8(s))]);
    assert texts == [s] && texts[1..] == [];
    assert Join([]) == "" && Join(texts) == s + "" == s;
    var v := ViewOf(lib, Print(Doc(mid, s)), others, Doc(mid, s), Own(Doc(mid, s), 0));
    assert v.texts == [s] && v.paraTexts == [s];
  }

  // ----- the run in the paragraph can be edited -----

  /** The candidates of the document are those of its text. */
  lemma {:induction false} OneParaCands(s: string)
    requires Letters(s)
    ensures AllCands(LibOf(R_LOCAL, s), 0, Paragraphs(Doc(R_LOCAL, s))) == QueryCands(0, 0, CandidateQueries(s))
  {
    hide Utf8, ParagraphFlags, RunTexts, CandidateQueries, PlainText, Paragraphs, QueryCands;
    DocParas(R_LOCAL, s);
    var lib, paras := LibOf(R_LOCAL, s), Paragraphs(Doc(R_LOCAL, s));
    NoFlags(s);
    OneText(s);
    var refs := [TextRef(0, PlainText(Utf8(s)))];
    var cands := QueryCands(0, 0, CandidateQueries(s));
    assert refs[1..] == [] && RefCands(lib, 0, []) == [];
    assert RefCands(lib, 0, refs) == cands;
    assert ParaCands(lib, 0, paras[0]) == cands;
    assert paras[1..] == [] && AllCands(lib, 1, []) == [];
  }

  lemma {:induction false} RunIsOk(s: string)
    ensures RunChildrenOk(TextNode(s)) && IsRun(Bare(R_LOCAL))
  {
    hide Utf8;
    NameBytes();
    assert T_LOCAL in KNOWN_RUN_INLINE;
    assert RunChild(Bare(T_LOCAL).name);
    assert RunChildrenOk(Done);
  }

  lemma {:induction false} TextsBelow(s: string)
    ensures ChildTexts(TextNode(s), 0) == [TextRef(0, PlainText(Utf8(s)))] && RunTexts(TextNode(s), 0, true) == []
  {
    hide Utf8, KNOWN_RUN_INLINE;
    NameBytes();
    assert IsText(Bare(T_LOCAL)) && !IsRun(Bare(T_LOCAL));
    assert ChildTexts(Done, 1 + TextCount(PlainText(Utf8(s)))) == [];
    assert RunTexts(PlainText(Utf8(s)), 1, Transparent(Bare(T_LOCAL))) == [];
    assert RunTexts(Done, 1 + TextCount(PlainText(Utf8(s))), true) == [];
  }

  lemma {:induction false} OneText(s: string)
    ensures RunTexts(Wrapping(R_LOCAL, s), 0, true) == [TextRef(0, PlainText(Utf8(s)))]
  {
    hide Utf8, KNOWN_RUN_INLINE, RunChildrenOk, ChildTexts, IsRun, PlainText;
    RunIsOk(s);
    TextsBelow(s);
    NameBytes();
    assert Transparent(Bare(R_LOCAL));
    assert RunTexts(Done, 0 + TextCount(TextNode(s)), true) == [];
  }

  // ----- what is selected -----

  /** The tests of a candidate, on the text and its bytes alone. */
  lemma {:induction false} SafeInSample(s: string, others: seq<string>, v: View, q: string)
    requires ViewIs(R_LOCAL, s, others, v) && Letters(s) && Letters(q) && (q[0] == 'a' || q[0] == 'z')
    ensures Safe(v, Cand(0, 0, q)) <==>
            && Count(s, q, 0) == 1 && Count(Utf8(s), Utf8(q), 0) == 1
            && forall i :: 0 <= i < |others| ==> Find(others[i], q, 0) < 0
  {
    hide Count, Find, Print, Lead, Trail, Utf8, PySlice;
    var mid, sb, qb := R_LOCAL, Utf8(s), Utf8(q);
    FirstByte(q);
    QueryBytes(q);
    DocBytes(mid, s);
    AroundText(mid);
    CountInside(Lead(mid), sb, Trail(mid), qb);
    InnerIsText(Lead(mid), sb, Trail(mid));
    assert v.lib.fold(q) == q && v.lib.fold(s) == s;
    assert [s][1..] == [] && FoldedCount(v.lib, [], q) == 0;
    assert FoldedCount(v.lib, [s], q) == Count(s, q, 0);
    assert InSome(v.lib, others, q) <==> exists i :: 0 <= i < |others| && Find(others[i], q, 0) >= 0;
  }

  lemma {:induction false} FirstByte(q: string)
    requires q != "" && (q[0] == 'a' || q[0] == 'z')
    ensures |Utf8(q)| > 0 && (Utf8(q)[0] == 97 || Utf8(q)[0] == 122)
  {}

  lemma {:induction false} InnerIsText(a: seq<byte>, m: seq<byte>, b: seq<byte>)
    ensures PySlice(a + m + b, |a|, |a| + |m|) == m
  {}

  /** The first safe candidate of the text becomes the target, at its leftmost place in the text. */
  lemma {:induction false} SampleSelected(s: string, others: seq<string>, c: Cand) returns (t: EditTarget)
    requires Letters(s)
    requires forall v :: ViewIs(R_LOCAL, s, others, v) ==> FirstSafe(v, QueryCands(0, 0, CandidateQueries(s))) == Some(c)
    requires c.ordinal == 0 && c.index == 0
    ensures IsSelection(LibOf(R_LOCAL, s), Print(Doc(R_LOCAL, s)), others, Selected(t))
    ensures t.query == c.query && t.paragraphId == Some(0) && t.wtStart == 15 && t.wtEnd == 15 + |Utf8(s)|
    ensures t.queryStart == 15 + Find(Utf8(s), Utf8(c.query), 0) && t.queryEnd == t.queryStart + |Utf8(c.query)|
    ensures t.query != [] && t.replacement == ReplacementFor(t.query)
  {
    hide Utf8, Find, Scan, Locate, Handle, Paragraphs, AllCands, Callbacks, Safe, ReplacementFor, PlainText, Print, FirstSafe,
         Own, PySlice, Directs, ViewOf, Fine, RangesOf, CandidateQueries, QueryCands, Lead, Trail, ViewIs;
    var mid := R_LOCAL;
    var lib, doc := LibOf(mid, s), Print(Doc(mid, s));
    DocLocated(mid, s);
    DocParas(mid, s);
    DocRanges(mid, s);
    TheView(mid, s, others);
    OneParaCands(s);
    DocBytes(mid, s);
    InnerIsText(Lead(mid), Utf8(s), Trail(mid));
    var v := ViewOf(lib, doc, others, Doc(mid, s), Own(Doc(mid, s), 0));
    assert FirstSafe(v, QueryCands(0, 0, CandidateQueries(s))) == Some(c);
    var found := SelectionExists(lib, doc, others);
    t := found.target;
  }
}
