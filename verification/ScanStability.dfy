/**
 Replacing a stretch of query bytes by equally many query bytes cannot disturb the tag scan, on any bytes at all:
 the scan steers only by bytes a query never holds, and the one letter pattern it looks for is too short to meet one.
 */
module ScanStability {
  import opened Sequences
  import opened Scanner

  /** A byte of the UTF-8 form of a query: an ASCII digit or letter, or any byte of a multi-byte character. */
  predicate Word(b: byte) {
    48 <= b <= 57 || 65 <= b <= 90 || 97 <= b <= 122 || b >= 128
  }

  predicate Interchangeable(x: byte, y: byte) {
    x == y || (Word(x) && Word(y) && (x < 128 <==> y < 128))
  }

  predicate Alike(a: seq<byte>, b: seq<byte>) {
    |a| == |b| && forall i :: 0 <= i < |a| ==> Interchangeable(a[i], b[i])
  }

  /** `a` and `b` also agree on where a CDATA section opens. */
  ghost predicate Twin(a: seq<byte>, b: seq<byte>) {
    Alike(a, b) && forall i :: At(a, CDATA_OPEN, i) <==> At(b, CDATA_OPEN, i)
  }

  ghost predicate NoWord(pat: seq<byte>) {
    forall i :: 0 <= i < |pat| ==> !Word(pat[i])
  }

  lemma {:induction false} SameAt(a: seq<byte>, b: seq<byte>, pat: seq<byte>, i: int)
    requires Alike(a, b) && NoWord(pat)
    ensures At(a, pat, i) <==> At(b, pat, i)
  {
    if 0 <= i && i + |pat| <= |a| {
      AtIndex(a, pat, i);
      AtIndex(b, pat, i);
      forall k | 0 <= k < |pat| ensures a[i + k] == pat[k] <==> b[i + k] == pat[k] {
        assert Interchangeable(a[i + k], b[i + k]);
      }
    }
  }

  lemma {:induction false} SameFind(a: seq<byte>, b: seq<byte>, pat: seq<byte>, from: nat)
    requires Alike(a, b) && NoWord(pat)
    ensures Find(a, pat, from) == Find(b, pat, from)
  {
    forall i ensures At(a, pat, i) <==> At(b, pat, i) {
      SameAt(a, b, pat, i);
    }
    var x, y := Find(a, pat, from), Find(b, pat, from);
    assert x >= 0 ==> At(b, pat, x);
    assert y >= 0 ==> At(a, pat, y);
  }

  lemma {:induction false} SameTagEnd(a: seq<byte>, b: seq<byte>, i: nat, quote: Option<byte>)
    requires Alike(a, b) && (quote.Some? ==> Quote(quote.value))
    ensures TagEnd(a, i, quote) == TagEnd(b, i, quote)
    decreases |a| - i
  {
    if i < |a| {
      assert Interchangeable(a[i], b[i]);
      SameTagEnd(a, b, i + 1, quote);
      SameTagEnd(a, b, i + 1, None);
      if Quote(a[i]) {
        SameTagEnd(a, b, i + 1, Some(a[i]));
      }
    }
  }

  lemma {:induction false} SameLStrip(a: seq<byte>, b: seq<byte>)
    requires Alike(a, b)
    ensures Alike(LStrip(a), LStrip(b))
  {
    if a != [] {
      assert Interchangeable(a[0], b[0]);
      SameLStrip(a[1..], b[1..]);
    }
  }

  lemma {:induction false} SameRStrip(a: seq<byte>, b: seq<byte>)
    requires Alike(a, b)
    ensures Alike(RStrip(a), RStrip(b))
  {
    if a != [] {
      var n := |a| - 1;
      assert Interchangeable(a[n], b[n]);
      SameRStrip(a[..n], b[..n]);
    }
  }

  lemma {:induction false} SameFirstWord(a: seq<byte>, b: seq<byte>)
    requires Alike(a, b)
    ensures Alike(FirstWord(a), FirstWord(b))
  {
    if a != [] {
      assert Interchangeable(a[0], b[0]);
      SameFirstWord(a[1..], b[1..]);
    }
  }

  lemma {:induction false} SameAscii(a: seq<byte>, b: seq<byte>)
    requires Alike(a, b)
    ensures Ascii(a) <==> Ascii(b)
  {
    assert forall i :: 0 <= i < |a| ==> Interchangeable(a[i], b[i]);
  }

  ghost predicate SameHead(a: Option<Head>, b: Option<Head>) {
    && (a.None? <==> b.None?)
    && (a.Some? ==> a.value.closing == b.value.closing && a.value.selfClosing == b.value.selfClosing)
  }

  lemma {:induction false} SameParse(a: seq<byte>, b: seq<byte>)
    requires Alike(a, b)
    ensures SameHead(ParseHead(a), ParseHead(b))
  {
    hide LStrip, RStrip, FirstWord, Ascii, Local;
    assert a != [] ==> Interchangeable(a[0], b[0]);
    var closing := a != [] && a[0] == SLASH;
    var ta, tb := if closing then a[1..] else a, if closing then b[1..] else b;
    assert Alike(ta, tb);
    SameLStrip(ta, tb);
    SameRStrip(LStrip(ta), LStrip(tb));
    var ba, bb := RStrip(LStrip(ta)), RStrip(LStrip(tb));
    var n := |ba| - 1;
    assert ba != [] ==> Interchangeable(ba[n], bb[n]);
    var selfClosing := !closing && ba != [] && ba[n] == SLASH;
    if selfClosing {
      SameRStrip(ba[..n], bb[..n]);
    }
    var ca, cb := if selfClosing then RStrip(ba[..n]) else ba, if selfClosing then RStrip(bb[..n]) else bb;
    SameFirstWord(ca, cb);
    SameAscii(FirstWord(ca), FirstWord(cb));
    assert FirstWord(ca) != [] ==> Interchangeable(FirstWord(ca)[0], FirstWord(cb)[0]);
  }

  /** Two tags that differ at most in their name, and not even there when their bytes agree. */
  ghost predicate SameTag(a: seq<byte>, b: seq<byte>, x: Tag, y: Tag) {
    && y == x.(name := y.name)
    && (x.start <= x.end <= |a| == |b| && a[x.start..x.end] == b[x.start..x.end] ==> x == y)
  }

  ghost predicate SameStep(a: seq<byte>, b: seq<byte>, x: Step, y: Step) {
    match (x, y)
    case (Stop, Stop) => true
    case (Skip(n), Skip(m)) => n == m
    case (Emit(s, n), Emit(t, m)) => n == m && SameTag(a, b, s, t)
    case _ => false
  }

  lemma {:induction false} SamePassOver(a: seq<byte>, b: seq<byte>, start: nat, open: seq<byte>, close: seq<byte>)
    requires Alike(a, b) && NoWord(close)
    ensures PassOver(a, start, open, close) == PassOver(b, start, open, close)
  {
    SameFind(a, b, close, start + |open|);
  }

  lemma {:induction false} SameTagAt(a: seq<byte>, b: seq<byte>, start: nat)
    requires Alike(a, b)
    ensures SameStep(a, b, TagAt(a, start), TagAt(b, start))
  {
    hide ParseHead, TagEnd;
    SameTagEnd(a, b, start + 1, None);
    var end := TagEnd(a, start + 1, None);
    if end >= 0 {
      var ra, rb := a[start + 1..end], b[start + 1..end];
      assert Alike(ra, rb) by {
        forall i | 0 <= i < |ra| ensures Interchangeable(ra[i], rb[i]) {
          assert Interchangeable(a[start + 1 + i], b[start + 1 + i]);
        }
      }
      SameParse(ra, rb);
      if a[start..end + 1] == b[start..end + 1] {
        SliceInside(a, start, end + 1, start + 1, end);
        SliceInside(b, start, end + 1, start + 1, end);
        assert ra == rb;
      }
    }
  }

  lemma {:induction false} SliceInside(s: seq<byte>, lo: nat, hi: nat, i: nat, j: nat)
    requires lo <= i <= j <= hi <= |s|
    ensures s[i..j] == s[lo..hi][i - lo..j - lo]
  {
    var x, y := s[i..j], s[lo..hi][i - lo..j - lo];
    assert |x| == |y| && forall k :: 0 <= k < |x| ==> x[k] == y[k];
  }

  lemma {:induction false} SameNext(a: seq<byte>, b: seq<byte>, pos: nat)
    requires Twin(a, b)
    ensures SameStep(a, b, Next(a, pos), Next(b, pos))
  {
    hide TagAt, PassOver, Find, At;
    SameFind(a, b, [LT], pos);
    var start := Find(a, [LT], pos);
    if start >= 0 {
      SameAt(a, b, COMMENT_OPEN, start);
      SameAt(a, b, PI_OPEN, start);
      SamePassOver(a, b, start, COMMENT_OPEN, COMMENT_CLOSE);
      SamePassOver(a, b, start, CDATA_OPEN, CDATA_CLOSE);
      SamePassOver(a, b, start, PI_OPEN, PI_CLOSE);
      SameTagAt(a, b, start);
    }
  }

  ghost predicate SameTags(a: seq<byte>, b: seq<byte>, x: seq<Tag>, y: seq<Tag>) {
    |x| == |y| && forall k :: 0 <= k < |x| ==> SameTag(a, b, x[k], y[k])
  }

  lemma {:induction false} SameScan(a: seq<byte>, b: seq<byte>, pos: nat)
    requires Twin(a, b)
    ensures SameTags(a, b, Scan(a, pos), Scan(b, pos))
    decreases |a| - pos
  {
    hide Next, Twin, SameTag;
    SameNext(a, b, pos);
    match Next(a, pos)
    case Stop =>
    case Skip(next) => SameScan(a, b, next);
    case Emit(tag, next) => SameScan(a, b, next);
  }

  // ----- from a replaced query to twins -----

  /** `r` may stand for the query bytes `q`. */
  predicate Replaces(q: seq<byte>, r: seq<byte>) {
    |q| == |r| && forall i :: 0 <= i < |q| ==> Word(q[i]) && Word(r[i]) && (q[i] < 128 <==> r[i] < 128)
  }

  /** Five letters between brackets leave no room for a stretch of eight query bytes. */
  lemma {:induction false} CDataApart(s: seq<byte>, at: nat, w: seq<byte>, i: int)
    requires At(s, w, at) && 8 <= |w| && (forall k :: 0 <= k < |w| ==> Word(w[k]))
    requires At(s, CDATA_OPEN, i)
    ensures i + 9 <= at || at + |w| <= i
  {
    if at <= i < at + |w| {
      ByteAt(s, w, at, i - at);
      ByteAt(s, CDATA_OPEN, i, 0);
    } else if at <= i + 2 < at + |w| {
      ByteAt(s, w, at, i + 2 - at);
      ByteAt(s, CDATA_OPEN, i, 2);
    } else if at <= i + 8 < at + |w| {
      ByteAt(s, w, at, i + 8 - at);
      ByteAt(s, CDATA_OPEN, i, 8);
    }
  }

  lemma {:induction false} SameOutside(a: seq<byte>, b: seq<byte>, at: nat, n: nat, pat: seq<byte>, i: int)
    requires |a| == |b| && (forall k :: 0 <= k < |a| && !(at <= k < at + n) ==> a[k] == b[k])
    requires At(a, pat, i) && (i + |pat| <= at || at + n <= i)
    ensures At(b, pat, i)
  {
    AtIndex(a, pat, i);
    AtIndex(b, pat, i);
  }

  lemma {:induction false} SpliceTwin(xml: seq<byte>, at: nat, q: seq<byte>, r: seq<byte>)
    requires At(xml, q, at) && 8 <= |q| && Replaces(q, r)
    ensures Twin(xml, Splice(xml, at, r))
  {
    var out := Splice(xml, at, r);
    AtIndex(xml, q, at);
    AtIndex(out, r, at);
    forall i | 0 <= i < |xml| ensures Interchangeable(xml[i], out[i]) {
      if at <= i < at + |q| {
        assert xml[at + (i - at)] == q[i - at];
      }
    }
    forall i ensures At(xml, CDATA_OPEN, i) <==> At(out, CDATA_OPEN, i) {
      if At(xml, CDATA_OPEN, i) {
        CDataApart(xml, at, q, i);
        SameOutside(xml, out, at, |q|, CDATA_OPEN, i);
      }
      if At(out, CDATA_OPEN, i) {
        CDataApart(out, at, r, i);
        SameOutside(out, xml, at, |q|, CDATA_OPEN, i);
      }
    }
  }

  /**
   For every byte string, well formed or not: after replacing eight or more query bytes by equally many, the scan
   yields the same tags at the same spans with the same kinds, and a tag that the replaced stretch does not touch
   keeps its name as well.
   */
  lemma {:induction false} ScanStable(xml: seq<byte>, at: nat, q: seq<byte>, r: seq<byte>)
    requires At(xml, q, at) && 8 <= |q| && Replaces(q, r)
    ensures var before, after := Scan(xml, 0), Scan(Splice(xml, at, r), 0);
            && |after| == |before|
            && forall k :: 0 <= k < |before| ==>
                 (&& after[k] == before[k].(name := after[k].name)
                  && (before[k].end <= at || at + |q| <= before[k].start ==> after[k] == before[k]))
  {
    hide Scan, Twin, InOrder;
    var out := Splice(xml, at, r);
    SpliceTwin(xml, at, q, r);
    SameScan(xml, out, 0);
    ScanOrdered(xml, 0);
    var before, after := Scan(xml, 0), Scan(out, 0);
    forall k | 0 <= k < |before|
      ensures after[k] == before[k].(name := after[k].name)
      ensures before[k].end <= at || at + |q| <= before[k].start ==> after[k] == before[k]
    {
      assert SameTag(xml, out, before[k], after[k]);
      SpanAt(xml, 0, before, k);
      var t := before[k];
      if t.end <= at || at + |q| <= t.start {
        assert xml[t.start..t.end] == out[t.start..t.end];
      }
    }
  }

  lemma {:induction false} SpanAt(xml: seq<byte>, pos: nat, tags: seq<Tag>, k: nat)
    requires InOrder(xml, pos, tags) && k < |tags|
    ensures pos <= tags[k].start < tags[k].end <= |xml|
    decreases k
  {
    if k > 0 {
      SpanAt(xml, tags[0].end, tags[1..], k - 1);
    }
  }
}
