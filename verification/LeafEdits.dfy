/** Overwriting query bytes in content without child elements: texts, comments, CDATA sections and instructions. */
module LeafEdits {
  import opened Sequences
  import opened Scanner
  import opened Markup
  import opened ScanStability

  /** Text, comments, CDATA sections and processing instructions only. */
  predicate NoChildren(f: Forest) {
    match f
    case Done => true
    case LeafNode(_, rest) => NoChildren(rest)
    case Empty(_, _) => false
    case Elem(_, _, _, _) => false
  }

  /** The bytes with those from `at` on overwritten, as far as they reach. */
  function Over(bs: seq<byte>, at: int, r: seq<byte>): (out: seq<byte>)
    ensures |out| == |bs|
    ensures forall k :: 0 <= k < |bs| ==> out[k] == if at <= k < at + |r| then r[k - at] else bs[k]
  {
    seq(|bs|, k requires 0 <= k < |bs| => if at <= k < at + |r| then r[k - at] else bs[k])
  }

  /** The leaves with the same kinds, and their contents overwritten where the stretch reaches them. */
  function Rewrite(f: Forest, at: int, r: seq<byte>): Forest {
    match f
    case LeafNode(l, rest) => LeafNode(RewriteLeaf(l, at, r), Rewrite(rest, at - |PrintLeaf(l)|, r))
    case _ => f
  }

  function RewriteLeaf(l: Leaf, at: int, r: seq<byte>): Leaf {
    match l
    case Text(t) => Text(Over(t, at, r))
    case Comment(b) => Comment(Over(b, at - |COMMENT_OPEN|, r))
    case CData(b) => CData(Over(b, at - |CDATA_OPEN|, r))
    case PI(b) => PI(Over(b, at - |PI_OPEN|, r))
  }

  /** Leaf by leaf the same kind and the same length. */
  predicate SameLeaves(f: Forest, g: Forest) {
    match f
    case Done => g == Done
    case LeafNode(l, rest) =>
      && g.LeafNode? && SameLeaves(rest, g.rest)
      && (match l
          case Text(t) => g.leaf.Text? && |g.leaf.text| == |t|
          case Comment(b) => g.leaf.Comment? && |g.leaf.body| == |b|
          case CData(b) => g.leaf.CData? && |g.leaf.body| == |b|
          case PI(b) => g.leaf.PI? && |g.leaf.body| == |b|)
    case _ => false
  }

  /** The stretch runs over query bytes only, as far as it reaches. */
  ghost predicate OverWords(bs: seq<byte>, at: int, n: nat) {
    forall k :: 0 <= k < |bs| && at <= k < at + n ==> Word(bs[k])
  }

  ghost predicate Words(r: seq<byte>) {
    forall k :: 0 <= k < |r| ==> Word(r[k])
  }

  lemma {:induction false} OverConcat(a: seq<byte>, b: seq<byte>, at: int, r: seq<byte>)
    ensures Over(a + b, at, r) == Over(a, at, r) + Over(b, at - |a|, r)
    ensures OverWords(a + b, at, |r|) ==> OverWords(a, at, |r|) && OverWords(b, at - |a|, |r|)
  {
    hide Word;
    if OverWords(a + b, at, |r|) {
      forall k | 0 <= k < |a| && at <= k < at + |r| ensures Word(a[k]) {
        assert (a + b)[k] == a[k];
      }
      forall k | 0 <= k < |b| && at - |a| <= k < at - |a| + |r| ensures Word(b[k]) {
        assert (a + b)[|a| + k] == b[k];
      }
    }
  }

  /** Bytes that are no query bytes stay. */
  lemma {:induction false} OthersStay(m: seq<byte>, at: int, r: seq<byte>)
    requires OverWords(m, at, |r|) && forall k :: 0 <= k < |m| ==> !Word(m[k])
    ensures Over(m, at, r) == m
  {
    hide Word;
  }

  /** And five letters between brackets leave no room for a stretch of eight. */
  lemma {:induction false} CDataStays(at: int, r: seq<byte>)
    requires OverWords(CDATA_OPEN, at, |r|) && |r| >= 8
    ensures Over(CDATA_OPEN, at, r) == CDATA_OPEN
  {
    var m := CDATA_OPEN;
    assert |m| == 9 && !Word(m[0]) && !Word(m[2]) && !Word(m[8]);
    assert at > 8 || at + |r| <= 0;
  }

  lemma {:induction false} WrappedOver(a: seq<byte>, b: seq<byte>, c: seq<byte>, at: int, r: seq<byte>)
    requires OverWords(a + (b + c), at, |r|)
    ensures OverWords(a, at, |r|) && OverWords(b, at - |a|, |r|) && OverWords(c, at - |a| - |b|, |r|)
    ensures Over(a + (b + c), at, r) == Over(a, at, r) + (Over(b, at - |a|, r) + Over(c, at - |a| - |b|, r))
  {
    OverConcat(a, b + c, at, r);
    OverConcat(b, c, at - |a|, r);
  }

  lemma {:induction false} LeafOver(l: Leaf, at: int, r: seq<byte>)
    requires OverWords(PrintLeaf(l), at, |r|) && |r| >= 8
    ensures PrintLeaf(RewriteLeaf(l, at, r)) == Over(PrintLeaf(l), at, r)
    ensures OverWords(if l.Text? then l.text else l.body,
                      at - if l.Text? then 0 else if l.Comment? then |COMMENT_OPEN| else if l.CData? then |CDATA_OPEN| else |PI_OPEN|, |r|)
  {
    hide OverWords, Over;
    match l
    case Text(t) =>
    case Comment(b) =>
      WrappedOver(COMMENT_OPEN, b, COMMENT_CLOSE, at, r);
      OthersStay(COMMENT_OPEN, at, r);
      OthersStay(COMMENT_CLOSE, at - |COMMENT_OPEN| - |b|, r);
    case CData(b) =>
      WrappedOver(CDATA_OPEN, b, CDATA_CLOSE, at, r);
      CDataStays(at, r);
      OthersStay(CDATA_CLOSE, at - |CDATA_OPEN| - |b|, r);
    case PI(b) =>
      WrappedOver(PI_OPEN, b, PI_CLOSE, at, r);
      OthersStay(PI_OPEN, at, r);
      OthersStay(PI_CLOSE, at - |PI_OPEN| - |b|, r);
  }

  /** A pattern without query bytes occurs where it did. */
  lemma {:induction false} OtherBytesStay(bs: seq<byte>, at: int, r: seq<byte>, pat: seq<byte>, i: int)
    requires OverWords(bs, at, |r|) && Words(r) && (forall k :: 0 <= k < |pat| ==> !Word(pat[k]))
    requires At(Over(bs, at, r), pat, i)
    ensures At(bs, pat, i)
  {
    hide Word;
    var out := Over(bs, at, r);
    AtIndex(out, pat, i);
    forall k | 0 <= k < |pat| ensures bs[i + k] == pat[k] {
      assert out[i + k] == pat[k];
    }
    AtIndex(bs, pat, i);
  }

  /** So a leaf stays well formed. */
  lemma {:induction false} GoodOver(l: Leaf, at: int, r: seq<byte>)
    requires GoodLeaf(l) && Words(r) && OverWords(PrintLeaf(l), at, |r|) && |r| >= 8
    ensures GoodLeaf(RewriteLeaf(l, at, r))
  {
    hide OverWords, Over, At, PrintLeaf;
    LeafOver(l, at, r);
    match l
    case Text(t) => TextOver(t, at, r);
    case Comment(b) => CommentOver(b, at - |COMMENT_OPEN|, r);
    case CData(b) =>
      var from := at - |CDATA_OPEN|;
      forall i ensures !At(Over(b, from, r), CDATA_CLOSE, i) {
        if At(Over(b, from, r), CDATA_CLOSE, i) {
          OtherBytesStay(b, from, r, CDATA_CLOSE, i);
        }
      }
    case PI(b) =>
      var from := at - |PI_OPEN|;
      forall i ensures !At(Over(b, from, r), PI_CLOSE, i) {
        if At(Over(b, from, r), PI_CLOSE, i) {
          OtherBytesStay(b, from, r, PI_CLOSE, i);
        }
      }
  }

  lemma {:induction false} TextOver(t: seq<byte>, at: int, r: seq<byte>)
    requires LT !in t && Words(r)
    ensures LT !in Over(t, at, r)
  {}

  lemma {:induction false} CommentOver(b: seq<byte>, at: int, r: seq<byte>)
    requires GoodLeaf(Comment(b)) && Words(r)
    ensures GoodLeaf(Comment(Over(b, at, r)))
  {}

  /** Overwriting in the leaves is overwriting in their print, and keeps them leaves of the same kinds and lengths. */
  lemma {:induction false} RewritePrint(f: Forest, at: int, r: seq<byte>)
    requires NoChildren(f) && OverWords(Print(f), at, |r|) && |r| >= 8 && Words(r)
    ensures var g := Rewrite(f, at, r);
            && Print(g) == Over(Print(f), at, r) && NoChildren(g) && SameLeaves(f, g)
            && (WellFormed(f) ==> WellFormed(g))
  {
    hide PrintLeaf, OverWords, Over, Words, GoodLeaf;
    match f
    case Done => NothingOver(at, r);
    case LeafNode(l, rest) =>
      OverConcat(PrintLeaf(l), Print(rest), at, r);
      LeafOver(l, at, r);
      SameLeaf(l, at, r);
      if GoodLeaf(l) {
        GoodOver(l, at, r);
      }
      RewritePrint(rest, at - |PrintLeaf(l)|, r);
  }

  lemma {:induction false} NothingOver(at: int, r: seq<byte>)
    ensures Over([], at, r) == []
  {}

  lemma {:induction false} SameLeaf(l: Leaf, at: int, r: seq<byte>)
    ensures SameLeaves(LeafNode(l, Done), LeafNode(RewriteLeaf(l, at, r), Done))
  {}
}
