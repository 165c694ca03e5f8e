/** Which structure a paragraph holds, told by the names of the elements below it, and which refusals it bears out. */
module Structure {
  import opened Sequences
  import opened Markup
  import opened Queries
  import opened Target
  import opened Probe

  /** The heads of all elements, in document order. */
  function Heads(f: Forest): seq<TagHead> {
    match f
    case Done => []
    case LeafNode(_, rest) => Heads(rest)
    case Empty(h, rest) => [h] + Heads(rest)
    case Elem(h, kids, _, rest) => [h] + Heads(kids) + Heads(rest)
  }

  /** Some element of the WordprocessingML namespace has that local name. */
  ghost predicate Has(f: Forest, name: string) {
    exists i :: 0 <= i < |Heads(f)| && Heads(f)[i].name.w && Heads(f)[i].name.local == Utf8(name)
  }

  ghost predicate HasOneOf(f: Forest, names: seq<string>) {
    exists k :: 0 <= k < |names| && Has(f, names[k])
  }

  const OPAQUE: seq<string> :=
    ["drawing", "pict", "object", "fldSimple", "oMath", "oMathPara", "sdt", "smartTag", "proofErr", "txbxContent",
     "AlternateContent"]
  const REVISION: seq<string> := ["ins", "del", "moveFrom", "moveTo", "delText"]
  const FIELD: seq<string> := ["fldChar", "instrText", "fldSimple"]
  const CONTROL: seq<string> := ["sdt"]

  ghost predicate SomeIn(heads: seq<TagHead>, names: set<seq<byte>>) {
    exists i :: 0 <= i < |heads| && heads[i].name.w && heads[i].name.local in names
  }

  lemma {:induction false} HasLocalMeans(f: Forest, names: set<seq<byte>>)
    ensures HasLocal(f, names) <==> SomeIn(Heads(f), names)
  {
    hide SomeIn;
    match f
    case Done => InNone(names);
    case LeafNode(_, rest) => HasLocalMeans(rest, names);
    case Empty(h, rest) =>
      HasLocalMeans(rest, names);
      InSplit([h], Heads(rest), names);
      InOne(h, names);
    case Elem(h, kids, _, rest) =>
      HasLocalMeans(kids, names);
      HasLocalMeans(rest, names);
      InSplit([h] + Heads(kids), Heads(rest), names);
      InSplit([h], Heads(kids), names);
      InOne(h, names);
  }

  lemma {:induction false} InSplit(a: seq<TagHead>, b: seq<TagHead>, names: set<seq<byte>>)
    ensures SomeIn(a + b, names) <==> SomeIn(a, names) || SomeIn(b, names)
  {
    if i :| 0 <= i < |a| && a[i].name.w && a[i].name.local in names {
      assert (a + b)[i] == a[i];
    }
    if i :| 0 <= i < |b| && b[i].name.w && b[i].name.local in names {
      assert (a + b)[|a| + i] == b[i];
    }
  }

  lemma {:induction false} InNone(names: set<seq<byte>>)
    ensures !SomeIn([], names)
  {}

  lemma {:induction false} InOne(h: TagHead, names: set<seq<byte>>)
    ensures SomeIn([h], names) <==> h.name.w && h.name.local in names
  {
    assert [h][0] == h;
  }

  /** A set of names against a list of them. */
  ghost predicate Spells(locals: set<seq<byte>>, names: seq<string>) {
    forall b :: b in locals <==> exists k :: 0 <= k < |names| && b == Utf8(names[k])
  }

  lemma {:induction false} OneOf(f: Forest, locals: set<seq<byte>>, names: seq<string>)
    requires Spells(locals, names)
    ensures HasLocal(f, locals) <==> HasOneOf(f, names)
  {
    hide Utf8, HasLocal;
    HasLocalMeans(f, locals);
    if i :| 0 <= i < |Heads(f)| && Heads(f)[i].name.w && Heads(f)[i].name.local in locals {
      var k :| 0 <= k < |names| && Heads(f)[i].name.local == Utf8(names[k]);
      assert Has(f, names[k]);
    }
    if k :| 0 <= k < |names| && Has(f, names[k]) {
      var i :| 0 <= i < |Heads(f)| && Heads(f)[i].name.w && Heads(f)[i].name.local == Utf8(names[k]);
      assert Heads(f)[i].name.local in locals;
    }
  }

  lemma {:induction false} RevisionSpelled()
    ensures Spells(REVISION_LOCALS, REVISION)
  {
    hide Utf8;
    var n := REVISION;
    assert n[0] == "ins" && n[1] == "del" && n[2] == "moveFrom" && n[3] == "moveTo" && n[4] == "delText" && |n| == 5;
  }

  lemma {:induction false} FieldSpelled()
    ensures Spells(FIELD_LOCALS, FIELD) && Spells(SDT_LOCALS, CONTROL)
  {
    hide Utf8;
    var n := FIELD;
    assert n[0] == "fldChar" && n[1] == "instrText" && n[2] == "fldSimple" && |n| == 3;
    assert CONTROL[0] == "sdt" && |CONTROL| == 1;
  }

  lemma {:induction false} OpaqueSpelled()
    ensures Spells(OPAQUE_LOCALS, OPAQUE)
  {
    hide Utf8;
    var n := OPAQUE;
    assert |n| == 11 && n[0] == "drawing" && n[1] == "pict" && n[2] == "object" && n[3] == "fldSimple" && n[4] == "oMath"
           && n[5] == "oMathPara" && n[6] == "sdt" && n[7] == "smartTag" && n[8] == "proofErr" && n[9] == "txbxContent"
           && n[10] == "AlternateContent";
  }

  /** The flags of a paragraph, by the names of the elements below it. */
  lemma {:induction false} FlagsByName(kids: Forest)
    ensures var f := ParagraphFlags(kids);
            && (f.opaqueContent <==> HasOneOf(kids, OPAQUE)) && (f.revision <==> HasOneOf(kids, REVISION))
            && (f.field <==> HasOneOf(kids, FIELD)) && (f.sdt <==> HasOneOf(kids, CONTROL))
            && (f.Any() <==> HasOneOf(kids, OPAQUE + REVISION + FIELD + CONTROL))
  {
    hide HasLocal, OPAQUE_LOCALS, REVISION_LOCALS, FIELD_LOCALS, SDT_LOCALS, OPAQUE, REVISION, FIELD, CONTROL, Spells, Has;
    OpaqueSpelled();
    RevisionSpelled();
    FieldSpelled();
    OneOf(kids, OPAQUE_LOCALS, OPAQUE);
    OneOf(kids, REVISION_LOCALS, REVISION);
    OneOf(kids, FIELD_LOCALS, FIELD);
    OneOf(kids, SDT_LOCALS, CONTROL);
    EitherList(kids, OPAQUE + REVISION + FIELD, CONTROL);
    EitherList(kids, OPAQUE + REVISION, FIELD);
    EitherList(kids, OPAQUE, REVISION);
  }

  lemma {:induction false} EitherList(f: Forest, a: seq<string>, b: seq<string>)
    ensures HasOneOf(f, a + b) <==> HasOneOf(f, a) || HasOneOf(f, b)
  {
    hide Has;
    if k :| 0 <= k < |a| && Has(f, a[k]) {
      assert (a + b)[k] == a[k];
    }
    if k :| 0 <= k < |b| && Has(f, b[k]) {
      assert (a + b)[|a| + k] == b[k];
    }
  }

  // ----- which refusal is borne out by what -----

  /** The names of which one has to stand below a paragraph for a refusal with the code to be believed. */
  function NamesFor(code: string): seq<string> {
    if code == "opaque-paragraph-mutated" then OPAQUE
    else if code == "prose-edit-unsupported" then FIELD + CONTROL
    else if code == "revision-text-mutated-in-direct-mode" then REVISION
    else if code == "match-spans-leaves" then FIELD + OPAQUE
    else if code == "edit-span-crosses-revision-boundary" then REVISION
    else if code == "cross-leaf-edit" then OPAQUE + REVISION + FIELD + CONTROL
    else []
  }

  /** A code is borne out exactly by an element with one of its names; a code that is none of the six never is. */
  lemma {:induction false} CodeByName(code: string, kids: Forest)
    ensures CodeMatches(code, ParagraphFlags(kids)) <==> HasOneOf(kids, NamesFor(code))
  {
    hide HasLocal, Has, OPAQUE, REVISION, FIELD, CONTROL, ParagraphFlags;
    FlagsByName(kids);
    EitherList(kids, FIELD, CONTROL);
    EitherList(kids, FIELD, OPAQUE);
  }

  /** So a refusal is justified exactly when it names the probe's own paragraph and an element with such a name is in it. */
  lemma {:induction false} RefusalByName(p: ProbeTarget, kids: Forest, engineParagraph: string, code: string)
    requires p.flags == ParagraphFlags(kids)
    ensures RefusalJustified(p, engineParagraph, code) <==>
            && p.paragraphId.Some? && engineParagraph == ParagraphName(p.paragraphId.value)
            && HasOneOf(kids, NamesFor(code))
  {
    hide CodeMatches, ParagraphName, HasOneOf, ParagraphFlags;
    CodeByName(code, kids);
  }
}
