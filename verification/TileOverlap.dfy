/** Where the one occurrence of a tile's text stands in the bytes, and when those of two tiles overlap. */
module TileOverlap {
  import opened Sequences
  import opened Queries
  import opened Spelling
  import opened TargetFacts

  /** How far before the tile its text is found, among the places that overlap the tile. */
  function Shift(text: string, t: Tile): (k: nat)
    requires t.start < t.end <= |text|
    ensures k <= t.start && k < t.end - t.start && At(text, text[t.start..t.end], t.start - k)
  {
    var q := text[t.start..t.end];
    var from := if t.start < |q| then 0 else t.start - |q| + 1;
    assert At(text, q, t.start);
    t.start - Find(text, q, from)
  }

  /** No overlapping place is further away. */
  lemma {:induction false} ShiftIsLargest(text: string, t: Tile, m: nat)
    requires t.start < t.end <= |text| && m <= t.start && m < t.end - t.start
    requires At(text, text[t.start..t.end], t.start - m)
    ensures m <= Shift(text, t)
  {}

  /** A text that does not overlap a shifted copy of itself is found at its own tile. */
  lemma {:induction false} NoShift(text: string, t: Tile)
    requires t.start < t.end <= |text| && NoSelfOverlap(text[t.start..t.end])
    ensures Shift(text, t) == 0
  {
    var q, k := text[t.start..t.end], Shift(text, t);
    if k > 0 {
      OverlapIsShift(text, q, t.start - k, t.start);
    }
  }

  /** The bytes of the m characters before position e. */
  function Back(text: string, e: nat, m: nat): seq<byte>
    requires m <= e <= |text|
  {
    Utf8(text[e - m..e])
  }

  lemma {:induction false} BackGrows(text: string, e: nat, m: nat, k: nat)
    requires m <= k <= e <= |text|
    ensures EndsIn(Back(text, e, k), Back(text, e, m))
    ensures m < k ==> |Back(text, e, m)| < |Back(text, e, k)|
  {
    hide Utf8;
    var x, y := text[e - k..e - m], text[e - m..e];
    assert text[e - k..e] == x + y;
    Utf8Concat(x, y);
    Utf8Starts(x);
    assert (Utf8(x) + Utf8(y))[|Utf8(x)|..] == Utf8(y);
  }

  lemma {:induction false} TileFacts(text: string, bs: seq<byte>, pos: seq<nat>, t: Tile)
    requires Spells(text, bs, pos) && t in Tiles(text, 0)
    ensures t.start + 8 <= t.end <= |text| && t.end - t.start <= 24 && QueryChars(text[t.start..t.end])
    ensures |pos| == |text| + 1 && pos[t.start] <= pos[t.end] <= |bs|
    ensures bs[pos[t.start]..pos[t.end]] == Utf8(text[t.start..t.end])
    ensures Edged(text, bs, pos, t)
  {
    hide Tiles, Utf8, AfterOther, Touched;
    TilesShape(text, 0);
    assert WrittenOut(text, bs, pos, t);
  }

  /** What stands before a tile that touches another one: the last characters of that one. */
  lemma {:induction false} BeforeTile(text: string, bs: seq<byte>, pos: seq<nat>, t: Tile, u: Tile, m: nat)
    requires Spells(text, bs, pos) && t in Tiles(text, 0) && u in Tiles(text, 0) && u.end == t.start && m <= 24
    ensures u.start + 24 == u.end && t.start < |text| == |pos| - 1
    ensures |Back(text, t.start, m)| <= pos[t.start] - pos[u.start]
    ensures pos[u.start] <= pos[t.start] <= |bs| && EndsIn(bs[..pos[t.start]], Back(text, t.start, m))
  {
    hide Tiles, Utf8, Spells, Edged;
    TileFacts(text, bs, pos, t);
    TileFacts(text, bs, pos, u);
    TouchingFull(text, u, t);
    BackGrows(text, t.start, m, 24);
    var whole := bs[pos[u.start]..pos[t.start]];
    assert whole == Back(text, t.start, 24);
    assert bs[..pos[t.start]] == bs[..pos[u.start]] + whole;
    EndsFurther(bs[..pos[u.start]], whole, Back(text, t.start, m));
  }

  /** An occurrence that begins before its tile begins inside the tile that touches it. */
  lemma {:induction false} StartsInNeighbour(text: string, t: Tile, m: nat) returns (u: Tile)
    requires t in Tiles(text, 0) && t.start < t.end <= |text| && 0 < m <= t.start && m < t.end - t.start
    requires QueryChars(text[t.start..t.end]) && At(text, text[t.start..t.end], t.start - m)
    ensures u in Tiles(text, 0) && u.end == t.start
  {
    hide Tiles;
    EdgeFrom(text, 0, t);
    var q := text[t.start..t.end];
    ByteAt(text, q, t.start - m, m - 1);
    u :| u in Tiles(text, 0) && u.end == t.start;
  }

  /** An occurrence of the tile's text that overlaps the tile is written out. */
  lemma {:induction false} WrittenBack(text: string, bs: seq<byte>, pos: seq<nat>, t: Tile, m: nat)
    requires Spells(text, bs, pos) && t in Tiles(text, 0) && t.start < t.end <= |text|
    requires m <= t.start && m < t.end - t.start && At(text, text[t.start..t.end], t.start - m)
    ensures |Back(text, t.start, m)| <= pos[t.start] <= |bs|
    ensures At(bs, Utf8(text[t.start..t.end]), pos[t.start] - |Back(text, t.start, m)|)
  {
    hide Tiles, Utf8, Spells, Edged, At, Back;
    TileFacts(text, bs, pos, t);
    var q, p, n := text[t.start..t.end], pos[t.start], t.end - t.start;
    if m == 0 {
      assert Back(text, t.start, 0) == [] by { BackNone(text, t.start); }
      SliceIsAt(bs, Utf8(q), p);
    } else {
      var u := StartsInNeighbour(text, t, m);
      BeforeTile(text, bs, pos, t, u, m);
      AtOverTile(text, t, m);
      var x, y := Back(text, t.start, m), Utf8(q[..n - m]);
      Utf8Concat(q[..n - m], q[n - m..]);
      assert q == q[..n - m] + q[n - m..];
      EndStands(bs, p, x);
      SliceIsAt(bs, Utf8(q), p);
      AtConcat(bs, y, Utf8(q[n - m..]), p);
      AtConcat(bs, x, y, p - |x|);
    }
  }

  lemma {:induction false} BackNone(text: string, e: nat)
    requires e <= |text|
    ensures Back(text, e, 0) == []
  {}

  lemma {:induction false} SliceIsAt(bs: seq<byte>, b: seq<byte>, p: nat)
    requires p <= |bs|
    ensures At(bs, b, p) <==> p + |b| <= |bs| && bs[p..p + |b|] == b
  {}

  lemma {:induction false} EndStands(bs: seq<byte>, p: nat, x: seq<byte>)
    requires p <= |bs| && EndsIn(bs[..p], x)
    ensures At(bs, x, p - |x|)
  {}

  /** The two parts of such an occurrence: before the tile, and in it. */
  lemma {:induction false} AtOverTile(text: string, t: Tile, m: nat)
    requires t.start < t.end <= |text| && m <= t.start && m < t.end - t.start
    requires At(text, text[t.start..t.end], t.start - m)
    ensures var q := text[t.start..t.end];
            && Utf8(q) == Back(text, t.start, m) + Utf8(q[..|q| - m])
            && Utf8(q) == Utf8(q[..|q| - m]) + Back(text, t.end, m)
  {
    hide Utf8;
    var q, n := text[t.start..t.end], t.end - t.start;
    var whole := text[t.start - m..t.end - m];
    assert whole == q;
    assert whole == text[t.start - m..t.start] + text[t.start..t.end - m];
    assert q == text[t.start..t.end - m] + text[t.end - m..t.end];
    assert q[..n - m] == text[t.start..t.end - m];
    Utf8Concat(text[t.start - m..t.start], text[t.start..t.end - m]);
    Utf8Concat(text[t.start..t.end - m], text[t.end - m..t.end]);
  }

  /** A text stands where one part ends and the other starts. */
  lemma {:induction false} AtOfParts(text: string, q: string, e: nat, m: nat)
    requires m <= e && m <= |q| && e + |q| - m <= |text|
    requires text[e - m..e] == q[..m] && text[e..e + |q| - m] == q[m..]
    ensures At(text, q, e - m)
  {
    assert q == q[..m] + q[m..];
    assert text[e - m..e - m + |q|] == text[e - m..e] + text[e..e + |q| - m];
  }

  /** Bytes of the tile's text that overlap the tile are an occurrence of it in the text. */
  lemma {:induction false} ReadBack(text: string, bs: seq<byte>, pos: seq<nat>, t: Tile, at: nat) returns (m: nat)
    requires Spells(text, bs, pos) && t in Tiles(text, 0) && t.start < t.end <= |text| == |pos| - 1
    requires At(bs, Utf8(text[t.start..t.end]), at) && at <= pos[t.start] < at + |Utf8(text[t.start..t.end])|
    ensures m <= t.start && m < t.end - t.start && At(text, text[t.start..t.end], t.start - m)
    ensures at + |Back(text, t.start, m)| == pos[t.start]
  {
    hide Tiles, Utf8, Spells, Edged, AfterOther, Touched, EndsIn;
    TileFacts(text, bs, pos, t);
    var q, p := text[t.start..t.end], pos[t.start];
    var qb, n := Utf8(q), p - at;
    OverlapParts(bs, qb, at, p);
    Utf8Starts(q);
    m := CutBytes(q, n);
    assert q[..|q|] == q;
    var head, tail := q[..m], q[m..];
    assert q == head + tail;
    Utf8Starts(head);
    Utf8Starts(tail);
    PrefixOfBytes(tail, q, qb[|qb| - n..]);
    if m > 0 {
      HeadBefore(text, bs, pos, t, at, head);
    }
    assert q[..|tail|] == text[t.start..t.start + |q| - m];
    AtOfParts(text, q, t.start, m);
  }

  /** An occurrence over position p, in its two parts; the tile's own bytes start at p. */
  lemma {:induction false} OverlapParts(bs: seq<byte>, qb: seq<byte>, at: nat, p: nat)
    requires At(bs, qb, at) && At(bs, qb, p) && at <= p < at + |qb|
    ensures bs[at..p] == qb[..p - at] && qb[p - at] == qb[0] && p <= |bs|
    ensures qb[p - at..] + qb[|qb| - (p - at)..] == qb
  {
    var n := p - at;
    assert bs[at..at + |qb|][..n] == bs[at..p];
    ByteAt(bs, qb, at, n);
    ByteAt(bs, qb, p, 0);
    if n > 0 {
      OverlapIsShift(bs, qb, at, p);
    }
    assert qb[n..] == qb[..|qb| - n];
  }

  /** Query characters that end where a tile starts are the last characters of the tile that touches it. */
  lemma {:induction false} HeadBefore(text: string, bs: seq<byte>, pos: seq<nat>, t: Tile, at: nat, head: string)
    requires Spells(text, bs, pos) && t in Tiles(text, 0) && t.start < t.end <= |text| == |pos| - 1
    requires head != [] && QueryChars(head) && |head| <= 24
    requires at <= pos[t.start] <= |bs| && bs[at..pos[t.start]] == Utf8(head)
    ensures |head| <= t.start && text[t.start - |head|..t.start] == head
  {
    hide Tiles, Utf8, Spells, EndsIn, TilesWell;
    TileFacts(text, bs, pos, t);
    var p := pos[t.start];
    Utf8Starts(head);
    assert bs[..p] == bs[..at] + Utf8(head);
    if !Touched(text, t) {
      var d: char :| !QueryChar(d) && EndsIn(bs[..p], Utf8Char(d));
      Utf8Last(head);
      EndsFurther(bs[..at], Utf8(head), Utf8Char(head[|head| - 1]));
      LastChar(bs[..p], d, head[|head| - 1]);
      assert false;
    } else {
      var u :| u in Tiles(text, 0) && u.end == t.start;
      TileFacts(text, bs, pos, u);
      TouchingFull(text, u, t);
      var last := text[u.start..u.end];
      assert bs[..p] == bs[..pos[u.start]] + Utf8(last);
      SuffixOfBytes(bs[..at], head, bs[..pos[u.start]], last);
      assert last[24 - |head|..] == text[t.start - |head|..t.start];
    }
  }

  /**
   The occurrence that all others overlap stands before its tile by exactly the bytes of `Shift` many characters: before
   the tile itself only when the text repeats there.
   */
  lemma {:induction false} PlaceOfShift(text: string, bs: seq<byte>, pos: seq<nat>, t: Tile, at: nat)
    requires Spells(text, bs, pos) && t in Tiles(text, 0) && t.start < t.end <= |text| == |pos| - 1
    requires OnlyAt(bs, Utf8(text[t.start..t.end]), at)
    ensures at + |Back(text, t.start, Shift(text, t))| == pos[t.start] < at + |Utf8(text[t.start..t.end])|
  {
    hide Tiles, Utf8, Spells, Edged, At, Back, Shift, Find;
    var k := Shift(text, t);
    BackNone(text, t.start);
    assert At(text, text[t.start..t.end], t.start) by { SelfAt(text, t); }
    WrittenBack(text, bs, pos, t, 0);
    var m := ReadBack(text, bs, pos, t, at);
    ShiftIsLargest(text, t, m);
    WrittenBack(text, bs, pos, t, k);
    BackGrows(text, t.start, m, k);
  }

  lemma {:induction false} SelfAt(text: string, t: Tile)
    requires t.start < t.end <= |text|
    ensures At(text, text[t.start..t.end], t.start)
  {}

  /** The end of that occurrence is as many characters before the end of the tile. */
  lemma {:induction false} EndOfPlace(text: string, bs: seq<byte>, pos: seq<nat>, t: Tile, at: nat)
    requires Spells(text, bs, pos) && t in Tiles(text, 0) && t.start < t.end <= |text| == |pos| - 1
    requires OnlyAt(bs, Utf8(text[t.start..t.end]), at)
    ensures at + |Utf8(text[t.start..t.end])| + |Back(text, t.end, Shift(text, t))| == pos[t.end]
  {
    hide Tiles, Utf8, Spells, Edged, At, Back, Shift, Find, OnlyAt;
    TileFacts(text, bs, pos, t);
    PlaceOfShift(text, bs, pos, t, at);
    AtOverTile(text, t, Shift(text, t));
  }

  // ----- two tiles -----

  /** The second tile starts where the first one ends, and its text is found further before it. */
  predicate Reaches(text: string, a: Tile, b: Tile)
    requires a.start < a.end <= |text| && b.start < b.end <= |text|
  {
    a.end == b.start && Shift(text, a) < Shift(text, b)
  }

  /** Nothing before the tile that comes just before is touched. */
  lemma {:induction false} PlaceAfter(text: string, bs: seq<byte>, pos: seq<nat>, a: Tile, b: Tile, at: nat)
    requires Spells(text, bs, pos) && a in Tiles(text, 0) && b in Tiles(text, 0) && a.end < b.start
    requires a.start < a.end <= |text| && b.start < b.end <= |text| == |pos| - 1
    requires OnlyAt(bs, Utf8(text[b.start..b.end]), at)
    ensures pos[a.end] <= at
  {
    hide Tiles, Utf8, Spells, At, Back, Shift, Find, OnlyAt, TilesWell, Edged;
    var k := Shift(text, b);
    TileFacts(text, bs, pos, b);
    PlaceOfShift(text, bs, pos, b, at);
    SpellsMeans(text, bs, pos);
    if k == 0 {
      BackNone(text, b.start);
    } else {
      var u := StartsInNeighbour(text, b, k);
      BeforeTile(text, bs, pos, b, u, k);
      TilesApart(text, a, u);
    }
  }

  /** The occurrences of two different tiles overlap exactly when one tile reaches into the other. */
  lemma {:induction false} OverlapInText(text: string, bs: seq<byte>, pos: seq<nat>, a: Tile, b: Tile, x: nat, y: nat)
    requires Spells(text, bs, pos) && a in Tiles(text, 0) && b in Tiles(text, 0) && a.end <= b.start
    requires a.start < a.end <= |text| && b.start < b.end <= |text|
    requires OnlyAt(bs, Utf8(text[a.start..a.end]), x) && OnlyAt(bs, Utf8(text[b.start..b.end]), y)
    ensures x < y + |Utf8(text[b.start..b.end])|
    ensures x + |Utf8(text[a.start..a.end])| <= y <==> !Reaches(text, a, b)
  {
    hide Tiles, Utf8, Spells, At, Back, Shift, Find, OnlyAt, Edged;
    SpellsMeans(text, bs, pos);
    PlaceOfShift(text, bs, pos, a, x);
    PlaceOfShift(text, bs, pos, b, y);
    EndOfPlace(text, bs, pos, a, x);
    if a.end < b.start {
      PlaceAfter(text, bs, pos, a, b, y);
    } else {
      var j, k := Shift(text, a), Shift(text, b);
      if j < k {
        BackGrows(text, a.end, j, k);
      } else {
        BackGrows(text, a.end, k, j);
      }
    }
  }
}
