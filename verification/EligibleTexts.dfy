/** Which `w:t` elements of a paragraph may hold a query, told by the elements around and beside them. */
module EligibleTexts {
  import opened Sequences
  import opened Markup
  import opened TextRanges
  import opened Queries
  import opened Target

  /**
   A `w:t` element: its index and content, the heads around it from the outermost in, and the children of the innermost
   of these.
   */
  datatype Place = Place(ref: TextRef, path: seq<TagHead>, beside: Forest)

  /** All of them below, in document order. */
  function PlacesIn(f: Forest, idx: nat, path: seq<TagHead>, beside: Forest): seq<Place> {
    match f
    case Done => []
    case LeafNode(_, rest) => PlacesIn(rest, idx, path, beside)
    case Empty(h, rest) =>
      (if IsText(h) then [Place(TextRef(idx, Done), path, beside)] else [])
      + PlacesIn(rest, if IsText(h) then idx + 1 else idx, path, beside)
    case Elem(h, kids, _, rest) =>
      var inner := if IsText(h) then idx + 1 else idx;
      (if IsText(h) then [Place(TextRef(idx, kids), path, beside)] else [])
      + PlacesIn(kids, inner, path + [h], kids)
      + PlacesIn(rest, inner + TextCount(kids), path, beside)
  }

  /** An element of the WordprocessingML namespace with that local name. */
  predicate Called(h: TagHead, name: string) {
    h.name.w && h.name.local == Utf8(name)
  }

  const INLINE: seq<string> :=
    ["rPr", "t", "delText", "tab", "br", "cr", "noBreakHyphen", "softHyphen", "sym", "commentReference", "footnoteRef",
     "endnoteRef", "annotationRef", "separator", "continuationSeparator", "lastRenderedPageBreak"]

  /** The heads of the items themselves. */
  function Items(f: Forest): seq<TagHead> {
    match f
    case Done => []
    case LeafNode(_, rest) => Items(rest)
    case Empty(h, rest) => [h] + Items(rest)
    case Elem(h, _, _, rest) => [h] + Items(rest)
  }

  ghost predicate KnownItem(h: TagHead) {
    h.name.w ==> exists k :: 0 <= k < |INLINE| && h.name.local == Utf8(INLINE[k])
  }

  ghost predicate AllKnown(heads: seq<TagHead>) {
    forall i :: 0 <= i < |heads| ==> KnownItem(heads[i])
  }

  /** A run, or an element that runs are looked for in. */
  predicate Through(h: TagHead) {
    Called(h, "r") || Called(h, "hyperlink")
  }

  ghost predicate AllThrough(path: seq<TagHead>) {
    forall i :: 0 <= i < |path| ==> Through(path[i])
  }

  /**
   It stands right in a run; every element around that run, up to the paragraph, is a run or a hyperlink; and the run
   holds nothing from the namespace but its properties and the inline items that are known.
   */
  ghost predicate Eligible(p: Place) {
    p.path != [] && Called(p.path[|p.path| - 1], "r") && AllThrough(p.path) && AllKnown(Items(p.beside))
  }

  // ----- names -----

  lemma {:induction false} RunNames(h: TagHead)
    ensures IsRun(h) <==> Called(h, "r")
    ensures Transparent(h) <==> Through(h)
  {
    hide Utf8;
  }

  lemma {:induction false} InlineNames(h: TagHead)
    ensures RunChild(h.name) <==> KnownItem(h)
  {
    hide Utf8;
    var n := INLINE;
    assert |n| == 16 && n[0] == "rPr" && n[1] == "t" && n[2] == "delText" && n[3] == "tab" && n[4] == "br" && n[5] == "cr"
           && n[6] == "noBreakHyphen" && n[7] == "softHyphen" && n[8] == "sym" && n[9] == "commentReference"
           && n[10] == "footnoteRef" && n[11] == "endnoteRef" && n[12] == "annotationRef" && n[13] == "separator"
           && n[14] == "continuationSeparator" && n[15] == "lastRenderedPageBreak";
  }

  lemma {:induction false} KnownMore(h: TagHead, heads: seq<TagHead>)
    ensures AllKnown([h] + heads) <==> KnownItem(h) && AllKnown(heads)
    ensures AllKnown([])
  {
    hide KnownItem;
    if AllKnown([h] + heads) {
      assert ([h] + heads)[0] == h;
      forall i | 0 <= i < |heads| ensures KnownItem(heads[i]) {
        assert ([h] + heads)[i + 1] == heads[i];
      }
    }
  }

  lemma {:induction false} ItemsKnown(kids: Forest)
    ensures RunChildrenOk(kids) <==> AllKnown(Items(kids))
  {
    hide RunChild, KnownItem, AllKnown, INLINE;
    match kids
    case Done => KnownMore(TagHead(Name(None, [], false), [], []), []);
    case LeafNode(_, rest) => ItemsKnown(rest);
    case Empty(h, rest) =>
      InlineNames(h);
      ItemsKnown(rest);
      KnownMore(h, Items(rest));
    case Elem(h, _, _, rest) =>
      InlineNames(h);
      ItemsKnown(rest);
      KnownMore(h, Items(rest));
  }

  // ----- the law -----

  /** An eligible place inside an item of the forest, with that reference. */
  ghost predicate Inside(f: Forest, idx: nat, path: seq<TagHead>, beside: Forest, r: TextRef) {
    Deep(PlacesIn(f, idx, path, beside), |path|, r)
  }

  ghost predicate Deep(places: seq<Place>, depth: nat, r: TextRef) {
    exists p :: p in places && |p.path| > depth && p.ref == r && Eligible(p)
  }

  lemma {:induction false} DeepSplit(a: seq<Place>, b: seq<Place>, depth: nat, r: TextRef)
    ensures Deep(a + b, depth, r) <==> Deep(a, depth, r) || Deep(b, depth, r)
  {
    hide Eligible;
    if p :| p in a && |p.path| > depth && p.ref == r && Eligible(p) {
      assert p in a + b;
    }
    if p :| p in b && |p.path| > depth && p.ref == r && Eligible(p) {
      assert p in a + b;
    }
  }

  lemma {:induction false} DeepOne(p: Place, depth: nat, r: TextRef)
    requires |p.path| <= depth
    ensures !Deep([p], depth, r) && !Deep([], depth, r)
  {
    hide Eligible;
  }

  /** A text right among the items. */
  ghost predicate Among(f: Forest, idx: nat, path: seq<TagHead>, beside: Forest, r: TextRef) {
    exists p :: p in PlacesIn(f, idx, path, beside) && p.path == path && p.ref == r
  }

  lemma {:induction false} PathsBelow(f: Forest, idx: nat, path: seq<TagHead>, beside: Forest, p: Place)
    requires p in PlacesIn(f, idx, path, beside)
    ensures |path| <= |p.path| && p.path[..|path|] == path
    ensures |p.path| == |path| ==> p.path == path && p.beside == beside
    decreases f
  {
    hide IsText;
    match f
    case LeafNode(_, rest) => PathsBelow(rest, idx, path, beside, p);
    case Empty(h, rest) =>
      if p in PlacesIn(rest, if IsText(h) then idx + 1 else idx, path, beside) {
        PathsBelow(rest, if IsText(h) then idx + 1 else idx, path, beside, p);
      }
    case Elem(h, kids, _, rest) =>
      var inner := if IsText(h) then idx + 1 else idx;
      if p in PlacesIn(kids, inner, path + [h], kids) {
        PathsBelow(kids, inner, path + [h], kids, p);
        assert p.path[..|path|] == p.path[..|path| + 1][..|path|];
      } else if p in PlacesIn(rest, inner + TextCount(kids), path, beside) {
        PathsBelow(rest, inner + TextCount(kids), path, beside, p);
      }
  }

  lemma {:induction false} AmongIs(f: Forest, idx: nat, path: seq<TagHead>, beside: Forest, r: TextRef)
    ensures r in ChildTexts(f, idx) <==> Among(f, idx, path, beside, r)
    decreases f
  {
    hide IsText;
    match f
    case Done =>
    case LeafNode(_, rest) => AmongIs(rest, idx, path, beside, r);
    case Empty(h, rest) =>
      AmongIs(rest, if IsText(h) then idx + 1 else idx, path, beside, r);
      if IsText(h) {
        assert Place(TextRef(idx, Done), path, beside) in PlacesIn(f, idx, path, beside);
      }
      AmongRest(f, idx, path, beside, r);
    case Elem(h, kids, _, rest) =>
      var inner := if IsText(h) then idx + 1 else idx;
      AmongIs(rest, inner + TextCount(kids), path, beside, r);
      if IsText(h) {
        assert Place(TextRef(idx, kids), path, beside) in PlacesIn(f, idx, path, beside);
      }
      AmongRest(f, idx, path, beside, r);
  }

  lemma {:induction false} AmongRest(f: Forest, idx: nat, path: seq<TagHead>, beside: Forest, r: TextRef)
    requires f.Empty? || f.Elem?
    ensures var h := f.head;
            var content, after := if f.Empty? then Done else f.kids,
                                  (if IsText(h) then idx + 1 else idx) + if f.Empty? then 0 else TextCount(f.kids);
            Among(f, idx, path, beside, r) <==>
            (IsText(h) && r == TextRef(idx, content)) || Among(f.rest, after, path, beside, r)
  {
    hide IsText;
    var h := f.head;
    var content, after := if f.Empty? then Done else f.kids,
                          (if IsText(h) then idx + 1 else idx) + if f.Empty? then 0 else TextCount(f.kids);
    if IsText(h) && r == TextRef(idx, content) {
      assert Place(r, path, beside) in PlacesIn(f, idx, path, beside);
    }
    if p :| p in PlacesIn(f.rest, after, path, beside) && p.path == path && p.ref == r {
      assert p in PlacesIn(f, idx, path, beside);
    }
    if p :| p in PlacesIn(f, idx, path, beside) && p.path == path && p.ref == r {
      if f.Elem? && p in PlacesIn(f.kids, if IsText(h) then idx + 1 else idx, path + [h], f.kids) {
        PathsBelow(f.kids, if IsText(h) then idx + 1 else idx, path + [h], f.kids, p);
      }
    }
  }

  /** Of an element: the texts right in it when it is an eligible run, and those further inside. */
  lemma {:induction false} InsideElem(h: TagHead, kids: Forest, tail: seq<byte>, rest: Forest, idx: nat, path: seq<TagHead>,
                                      beside: Forest, r: TextRef)
    ensures var inner := if IsText(h) then idx + 1 else idx;
            var ok := Called(h, "r") && AllThrough(path) && AllKnown(Items(kids));
            Inside(Elem(h, kids, tail, rest), idx, path, beside, r) <==>
            || (ok && Among(kids, inner, path + [h], kids, r))
            || Inside(kids, inner, path + [h], kids, r)
            || Inside(rest, inner + TextCount(kids), path, beside, r)
  {
    hide IsText, Utf8, AllKnown, TextCount, Called, AllThrough, Deep, PlacesIn, Among;
    var inner := if IsText(h) then idx + 1 else idx;
    var own := if IsText(h) then [Place(TextRef(idx, kids), path, beside)] else [];
    var below, after := PlacesIn(kids, inner, path + [h], kids), PlacesIn(rest, inner + TextCount(kids), path, beside);
    PlacesElem(h, kids, tail, rest, idx, path, beside);
    DeepSplit(own + below, after, |path|, r);
    DeepSplit(own, below, |path|, r);
    DeepOne(Place(TextRef(idx, kids), path, beside), |path|, r);
    DeepBelow(h, kids, inner, path, r);
  }

  lemma {:induction false} PlacesElem(h: TagHead, kids: Forest, tail: seq<byte>, rest: Forest, idx: nat, path: seq<TagHead>,
                                      beside: Forest)
    ensures var inner := if IsText(h) then idx + 1 else idx;
            PlacesIn(Elem(h, kids, tail, rest), idx, path, beside) ==
            (if IsText(h) then [Place(TextRef(idx, kids), path, beside)] else [])
            + PlacesIn(kids, inner, path + [h], kids) + PlacesIn(rest, inner + TextCount(kids), path, beside)
  {
    hide IsText;
  }

  lemma {:induction false} DeepBelow(h: TagHead, kids: Forest, idx: nat, path: seq<TagHead>, r: TextRef)
    ensures Deep(PlacesIn(kids, idx, path + [h], kids), |path|, r) <==>
            || (Called(h, "r") && AllThrough(path) && AllKnown(Items(kids)) && Among(kids, idx, path + [h], kids, r))
            || Inside(kids, idx, path + [h], kids, r)
  {
    hide IsText, Utf8, AllKnown, Called, AllThrough, PlacesIn;
    var below := PlacesIn(kids, idx, path + [h], kids);
    ThroughMore(path, h);
    forall p | p in below
      ensures |p.path| > |path| && (|p.path| == |path| + 1 ==> p.path == path + [h] && p.beside == kids)
    {
      PathsBelow(kids, idx, path + [h], kids, p);
    }
  }

  lemma {:induction false} ThroughMore(path: seq<TagHead>, h: TagHead)
    ensures AllThrough(path + [h]) <==> AllThrough(path) && Through(h)
    ensures Called(h, "r") ==> Through(h)
  {
    hide Utf8;
    if AllThrough(path + [h]) {
      assert (path + [h])[|path|] == h;
      forall i | 0 <= i < |path| ensures Through(path[i]) {
        assert (path + [h])[i] == path[i];
      }
    }
  }

  lemma {:induction false} InsideEmpty(h: TagHead, rest: Forest, idx: nat, path: seq<TagHead>, beside: Forest, r: TextRef)
    ensures Inside(Empty(h, rest), idx, path, beside, r) <==>
            Inside(rest, if IsText(h) then idx + 1 else idx, path, beside, r)
  {
    hide IsText, Eligible;
    var f, more := Empty(h, rest), PlacesIn(rest, if IsText(h) then idx + 1 else idx, path, beside);
    assert forall p :: p in PlacesIn(f, idx, path, beside) && |p.path| > |path| <==> p in more && |p.path| > |path|;
  }

  lemma {:induction false} RunTextsAre(f: Forest, idx: nat, path: seq<TagHead>, beside: Forest, r: TextRef)
    ensures r in RunTexts(f, idx, AllThrough(path)) <==> Inside(f, idx, path, beside, r)
    decreases f
  {
    hide IsText, IsRun, Transparent, Utf8, RunChildrenOk, ChildTexts, Inside, Among, KnownItem, TextCount;
    match f
    case Done => NothingInside(idx, path, beside, r);
    case LeafNode(l, rest) =>
      RunTextsAre(rest, idx, path, beside, r);
      InsideLeaf(l, rest, idx, path, beside, r);
    case Empty(h, rest) =>
      RunTextsAre(rest, if IsText(h) then idx + 1 else idx, path, beside, r);
      InsideEmpty(h, rest, idx, path, beside, r);
    case Elem(h, kids, tail, rest) =>
      var inner := if IsText(h) then idx + 1 else idx;
      RunNames(h);
      ItemsKnown(kids);
      ThroughMore(path, h);
      AmongIs(kids, inner, path + [h], kids, r);
      RunTextsAre(kids, inner, path + [h], kids, r);
      RunTextsAre(rest, inner + TextCount(kids), path, beside, r);
      InsideElem(h, kids, tail, rest, idx, path, beside, r);
  }

  lemma {:induction false} NothingInside(idx: nat, path: seq<TagHead>, beside: Forest, r: TextRef)
    ensures !Inside(Done, idx, path, beside, r)
  {}

  lemma {:induction false} InsideLeaf(l: Leaf, rest: Forest, idx: nat, path: seq<TagHead>, beside: Forest, r: TextRef)
    ensures Inside(LeafNode(l, rest), idx, path, beside, r) <==> Inside(rest, idx, path, beside, r)
  {
    hide Eligible;
  }

  /** The texts tried in a paragraph are exactly its eligible ones. */
  lemma {:induction false} TriedAreEligible(kids: Forest, first: nat, r: TextRef)
    ensures r in RunTexts(kids, first, true) <==>
            exists p :: p in PlacesIn(kids, first, [], kids) && p.ref == r && Eligible(p)
  {
    hide PlacesIn, RunTexts, Eligible;
    assert AllThrough([]);
    RunTextsAre(kids, first, [], kids, r);
    if p :| p in PlacesIn(kids, first, [], kids) && p.ref == r && Eligible(p) {
      EligibleInside(p);
      assert Inside(kids, first, [], kids, r);
    }
  }

  lemma {:induction false} EligibleInside(p: Place)
    requires Eligible(p)
    ensures |p.path| > 0
  {
    hide Utf8;
  }
}
