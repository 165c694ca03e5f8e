/** Texts written out in bytes: where the tiles of a text stand, and where a query is found that overlaps its own tile. */
module Spelling {
  import opened Sequences
  import opened Queries

  /** Offsets into the bytes for every position of the text they decode to, growing along it. */
  ghost predicate Offsets(text: string, bs: seq<byte>, pos: seq<nat>) {
    && |pos| == |text| + 1
    && (forall a, b :: 0 <= a <= b <= |text| ==> pos[a] <= pos[b] <= |bs|)
  }

  /** The tile's characters stand in the bytes as themselves, none of them written as a reference. */
  ghost predicate WrittenOut(text: string, bs: seq<byte>, pos: seq<nat>, t: Tile)
    requires Offsets(text, bs, pos)
  {
    && t.start <= t.end <= |text|
    && bs[pos[t.start]..pos[t.end]] == Utf8(text[t.start..t.end])
  }

  /** The bytes decode to the text in order, and every tile of the text is written out in them. */
  ghost predicate TilesWrittenOut(text: string, bs: seq<byte>) {
    exists pos: seq<nat> :: Offsets(text, bs, pos) && forall t :: t in Tiles(text, 0) ==> WrittenOut(text, bs, pos, t)
  }

  predicate EndsIn(b: seq<byte>, e: seq<byte>) {
    |e| <= |b| && b[|b| - |e|..] == e
  }

  /** The bytes end in a character outside the query alphabet: a space, the `;` of a reference, the `>` of a comment. */
  ghost predicate AfterOther(b: seq<byte>) {
    exists d: char :: !QueryChar(d) && EndsIn(b, Utf8Char(d))
  }

  /** Another tile ends where this one starts. */
  ghost predicate Touched(text: string, t: Tile) {
    exists u :: u in Tiles(text, 0) && u.end == t.start
  }

  /** The tile follows another one at once, or opens the bytes, or follows a character outside the query alphabet. */
  ghost predicate Edged(text: string, bs: seq<byte>, pos: seq<nat>, t: Tile)
    requires Offsets(text, bs, pos)
  {
    t.start <= |text| && (Touched(text, t) || pos[t.start] == 0 || AfterOther(bs[..pos[t.start]]))
  }

  ghost predicate Spells(text: string, bs: seq<byte>, pos: seq<nat>) {
    && Offsets(text, bs, pos)
    && forall t :: t in Tiles(text, 0) ==> WrittenOut(text, bs, pos, t) && Edged(text, bs, pos, t)
  }

  /** The tiles are written out, and what stands before a stretch of them is no query character in the bytes either. */
  ghost predicate TilesSpelled(text: string, bs: seq<byte>) {
    exists pos: seq<nat> :: Spells(text, bs, pos)
  }

  lemma {:induction false} SpelledIsWrittenOut(text: string, bs: seq<byte>)
    requires TilesSpelled(text, bs)
    ensures TilesWrittenOut(text, bs)
  {
    hide Tiles, Utf8;
    var pos :| Spells(text, bs, pos);
    assert Offsets(text, bs, pos);
  }

  // ----- characters and their bytes -----

  predicate Continues(x: byte) { 0x80 <= x < 0xC0 }

  lemma {:induction false} CharShape(c: char)
    ensures var b := Utf8Char(c); !Continues(b[0]) && forall i :: 1 <= i < |b| ==> Continues(b[i])
  {}

  lemma {:induction false} CharOfBytes(c: char, d: char)
    requires Utf8Char(c) == Utf8Char(d)
    ensures c == d
  {
    var b := Utf8Char(c);
    CharValue(c);
    CharValue(d);
  }

  /** The number a character's bytes stand for. */
  function Value(b: seq<byte>): int
    requires 1 <= |b| <= 4
  {
    var first := b[0] as int;
    if |b| == 1 then first
    else if |b| == 2 then (first - 0xC0) * 64 + (b[1] as int - 0x80)
    else if |b| == 3 then (first - 0xE0) * 4096 + (b[1] as int - 0x80) * 64 + (b[2] as int - 0x80)
    else (first - 0xF0) * 262144 + (b[1] as int - 0x80) * 4096 + (b[2] as int - 0x80) * 64 + (b[3] as int - 0x80)
  }

  lemma {:induction false} CharValue(c: char)
    ensures Value(Utf8Char(c)) == c as int
  {
    var n := c as int;
    assert n == 64 * (n / 64) + n % 64;
    assert n / 64 == 64 * (n / 64 / 64) + n / 64 % 64;
    assert n / 64 / 64 == n / 4096;
    assert n / 4096 == 64 * (n / 4096 / 64) + n / 4096 % 64;
    assert n / 4096 / 64 == n / 262144;
  }

  lemma {:induction false} EndAt(b: seq<byte>, e: seq<byte>, i: nat)
    requires EndsIn(b, e) && i < |e|
    ensures b[|b| - |e| + i] == e[i]
  {
    assert b[|b| - |e|..][i] == b[|b| - |e| + i];
  }

  lemma {:induction false} ShorterEnd(b: seq<byte>, x: seq<byte>, y: seq<byte>)
    requires EndsIn(b, x) && EndsIn(b, y) && 0 < |x| < |y|
    ensures y[|y| - |x|] == x[0]
  {
    EndAt(b, x, 0);
    EndAt(b, y, |y| - |x|);
  }

  /** Two characters that end at one place are equal. */
  lemma {:induction false} LastChar(b: seq<byte>, c: char, d: char)
    requires EndsIn(b, Utf8Char(c)) && EndsIn(b, Utf8Char(d))
    ensures c == d
  {
    hide Utf8Char;
    var x, y := Utf8Char(c), Utf8Char(d);
    CharShape(c);
    CharShape(d);
    if |x| < |y| {
      ShorterEnd(b, x, y);
    } else if |y| < |x| {
      ShorterEnd(b, y, x);
    }
    CharOfBytes(c, d);
  }

  /** The first byte tells how many there are. */
  function SizeOf(lead: byte): nat {
    if lead < 0x80 then 1 else if lead < 0xE0 then 2 else if lead < 0xF0 then 3 else 4
  }

  lemma {:induction false} CharSize(c: char)
    ensures |Utf8Char(c)| == SizeOf(Utf8Char(c)[0])
  {}

  /** Two characters that begin at one place are equal. */
  lemma {:induction false} FirstChar(c: char, d: char, x: seq<byte>, y: seq<byte>)
    requires Utf8Char(c) + x == Utf8Char(d) + y
    ensures c == d && x == y
  {
    hide Utf8Char;
    var a, b := Utf8Char(c), Utf8Char(d);
    CharSize(c);
    CharSize(d);
    assert a[0] == (a + x)[0] && b[0] == (b + y)[0];
    assert a == (a + x)[..|a|] && b == (b + y)[..|b|];
    assert x == (a + x)[|a|..] && y == (b + y)[|b|..];
    CharOfBytes(c, d);
  }

  lemma {:induction false} Utf8Starts(s: string)
    ensures Utf8(s) == [] <==> s == []
    ensures s != [] ==> !Continues(Utf8(s)[0])
  {
    if s != [] {
      CharShape(s[0]);
    }
  }

  /** A text whose bytes begin another's begins that text. */
  lemma {:induction false} PrefixOfBytes(a: string, b: string, tail: seq<byte>)
    requires Utf8(a) + tail == Utf8(b)
    ensures |a| <= |b| && b[..|a|] == a
    decreases |a|
  {
    hide Utf8Char;
    if a != [] {
      Utf8Starts(a);
      Utf8Starts(b);
      assert |Utf8(a) + tail| > 0;
      assert Utf8Char(a[0]) + (Utf8(a[1..]) + tail) == Utf8Char(b[0]) + Utf8(b[1..]);
      FirstChar(a[0], b[0], Utf8(a[1..]) + tail, Utf8(b[1..]));
      PrefixOfBytes(a[1..], b[1..], tail);
      assert b[..|a|] == [b[0]] + b[1..][..|a| - 1] && a == [a[0]] + a[1..];
    }
  }

  /** Cutting a text's bytes where no character goes on cuts the text. */
  lemma {:induction false} CutBytes(s: string, n: nat) returns (m: nat)
    requires n <= |Utf8(s)| && (n == |Utf8(s)| || !Continues(Utf8(s)[n]))
    ensures m <= |s| && Utf8(s[..m]) == Utf8(s)[..n] && Utf8(s[m..]) == Utf8(s)[n..]
    decreases |s|
  {
    hide Utf8Char;
    if n == 0 {
      m := 0;
      assert s[0..] == s && s[..0] == "";
    } else {
      var c := Utf8Char(s[0]);
      CharShape(s[0]);
      assert Utf8(s) == c + Utf8(s[1..]);
      var k := CutBytes(s[1..], n - |c|);
      m := k + 1;
      assert s[..m][0] == s[0] && s[..m][1..] == s[1..][..k] && s[m..] == s[1..][k..];
      assert Utf8(s)[..n] == c + Utf8(s[1..])[..n - |c|] && Utf8(s)[n..] == Utf8(s[1..])[n - |c|..];
    }
  }

  lemma {:induction false} Utf8Last(s: string)
    requires s != []
    ensures Utf8(s) == Utf8(s[..|s| - 1]) + Utf8Char(s[|s| - 1]) && EndsIn(Utf8(s), Utf8Char(s[|s| - 1]))
  {
    hide Utf8, Utf8Char;
    var n := |s| - 1;
    assert s == s[..n] + [s[n]];
    Utf8Concat(s[..n], [s[n]]);
    Utf8One(s[n]);
  }

  lemma {:induction false} EndsFurther(p: seq<byte>, b: seq<byte>, e: seq<byte>)
    requires EndsIn(b, e)
    ensures EndsIn(p + b, e)
  {}

  /** Two texts that end at one place agree as far as the shorter one goes. */
  lemma {:induction false} SuffixOfBytes(p: seq<byte>, a: string, r: seq<byte>, b: string)
    requires p + Utf8(a) == r + Utf8(b) && |a| <= |b|
    ensures b[|b| - |a|..] == a
    decreases |a|
  {
    hide Utf8, Utf8Char, EndsIn;
    if a != [] {
      var c, d := a[|a| - 1], b[|b| - 1];
      var a', b' := a[..|a| - 1], b[..|b| - 1];
      Utf8Last(a);
      Utf8Last(b);
      EndsFurther(p, Utf8(a), Utf8Char(c));
      EndsFurther(r, Utf8(b), Utf8Char(d));
      LastChar(p + Utf8(a), c, d);
      SameStart(p + Utf8(a'), r + Utf8(b'), Utf8Char(c), p + Utf8(a));
      SuffixOfBytes(p, a', r, b');
      assert b == b' + [d] && a == a' + [c];
      assert b[|b| - |a|..] == b'[|b'| - |a'|..] + [d];
    }
  }

  lemma {:induction false} SameStart(x: seq<byte>, y: seq<byte>, e: seq<byte>, whole: seq<byte>)
    requires x + e == whole == y + e
    ensures x == y
  {
    assert x == whole[..|whole| - |e|] && y == whole[..|whole| - |e|];
  }

  lemma {:induction false} Utf8Monotone(text: string, a: nat, b: nat)
    requires a <= b <= |text|
    ensures |Utf8(text[..a])| <= |Utf8(text[..b])|
  {
    assert text[..b] == text[..a] + text[a..b];
    Utf8Concat(text[..a], text[a..b]);
  }

  // ----- where tiles start and end -----

  lemma {:induction false} TileReach(text: string, pos: nat, t: Tile)
    requires pos <= |text| && t in Tiles(text, pos)
    ensures t.start < |text| && t.end == t.start + Reach(text, t.start)
    decreases |text| - pos
  {
    var n := Reach(text, pos);
    if n >= 8 {
      if t != Tile(pos, pos + n) {
        TileReach(text, pos + n, t);
      }
    } else {
      TileReach(text, pos + 1, t);
    }
  }

  lemma {:induction false} TilesApart(text: string, a: Tile, b: Tile)
    requires a in Tiles(text, 0) && b in Tiles(text, 0) && a != b
    ensures a.end <= b.start || b.end <= a.start
  {
    TilesShape(text, 0);
  }

  /** A tile that another one follows at once is as long as a query can be. */
  lemma {:induction false} TouchingFull(text: string, u: Tile, t: Tile)
    requires u in Tiles(text, 0) && t in Tiles(text, 0) && u.end == t.start
    ensures u.end == u.start + 24 && t.end <= |text|
  {
    hide Tiles;
    TilesShape(text, 0);
    TileReach(text, 0, u);
    assert QueryChar(text[t.start]);
  }

  /** A tile starts where another one ended, at the very start, or after a character outside the alphabet. */
  lemma {:induction false} EdgeFrom(text: string, pos: nat, t: Tile)
    requires pos <= |text| && t in Tiles(text, pos)
    ensures pos <= t.start < |text|
    ensures t.start == pos || !QueryChar(text[t.start - 1]) || exists u :: u in Tiles(text, pos) && u.end == t.start
    decreases |text| - pos
  {
    hide TilesWell;
    var n := Reach(text, pos);
    if n >= 8 {
      var first := Tile(pos, pos + n);
      assert first in Tiles(text, pos);
      if t != first {
        EdgeFrom(text, pos + n, t);
        if u :| u in Tiles(text, pos + n) && u.end == t.start {
          assert u in Tiles(text, pos);
        }
      }
    } else {
      EdgeFrom(text, pos + 1, t);
      if t.start == pos + 1 {
        NoEarlierStart(text, pos, t);
      }
    }
  }

  /** A tile does not start one after a character that could have begun it. */
  lemma {:induction false} NoEarlierStart(text: string, pos: nat, t: Tile)
    requires pos < |text| && Reach(text, pos) < 8 && t in Tiles(text, pos + 1) && t.start == pos + 1
    ensures !QueryChar(text[pos])
  {
    TileReach(text, pos + 1, t);
    TileLong(text, pos + 1, t);
  }

  lemma {:induction false} TileLong(text: string, pos: nat, t: Tile)
    requires pos <= |text| && t in Tiles(text, pos)
    ensures t.end >= t.start + 8
  {
    hide Tiles;
    TilesShape(text, pos);
  }

  // ----- texts written out -----

  /** A text written in plain UTF-8 is spelled out. */
  lemma {:induction false} PlainIsSpelled(text: string)
    ensures TilesSpelled(text, Utf8(text))
  {
    hide Utf8, Tiles, IsQuery, EndsIn, AfterOther, Touched;
    var pos: seq<nat> := seq(|text| + 1, k requires 0 <= k <= |text| => |Utf8(text[..k])|);
    var bs := Utf8(text);
    assert text[..|text|] == text;
    forall a, b | 0 <= a <= b <= |text| ensures pos[a] <= pos[b] <= |bs| {
      Utf8Monotone(text, a, b);
      Utf8Monotone(text, b, |text|);
    }
    assert Offsets(text, bs, pos);
    TilesShape(text, 0);
    forall t | t in Tiles(text, 0) ensures WrittenOut(text, bs, pos, t) && Edged(text, bs, pos, t) {
      Utf8Slices(text, t.start, t.end);
      assert text[..t.end] == text[..t.start] + text[t.start..t.end];
      Utf8Concat(text[..t.start], text[t.start..t.end]);
      EdgeFrom(text, 0, t);
      PlainEdge(text, t);
    }
    assert Spells(text, bs, pos);
  }

  lemma {:induction false} PlainEdge(text: string, t: Tile)
    requires t in Tiles(text, 0) && t.start <= |text|
    ensures var n := |Utf8(text[..t.start])|; n <= |Utf8(text)| && (Touched(text, t) || n == 0 || AfterOther(Utf8(text)[..n]))
  {
    hide Tiles, Utf8, EndsIn;
    EdgeFrom(text, 0, t);
    var before := text[..t.start];
    assert text == before + text[t.start..];
    Utf8Concat(before, text[t.start..]);
    Utf8Starts(before);
    if t.start > 0 && !QueryChar(text[t.start - 1]) {
      Utf8Last(before);
      assert before[|before| - 1] == text[t.start - 1];
    }
  }

  // ----- tiles of a text made of parts -----

  function Moved(tiles: seq<Tile>, n: nat): seq<Tile> {
    seq(|tiles|, i requires 0 <= i < |tiles| => Tile(tiles[i].start + n, tiles[i].end + n))
  }

  lemma {:induction false} InJoin(left: seq<Tile>, right: seq<Tile>, n: nat, t: Tile)
    ensures t in left + Moved(right, n) <==>
            t in left || (n <= t.start && n <= t.end && Tile(t.start - n, t.end - n) in right)
  {
    var moved := Moved(right, n);
    if n <= t.start && n <= t.end && Tile(t.start - n, t.end - n) in right {
      var k :| 0 <= k < |right| && right[k] == Tile(t.start - n, t.end - n);
      assert moved[k] == t;
    }
  }

  lemma {:induction false} RunStays(x: string, z: string, pos: nat)
    requires pos <= |x| && (z == [] || !QueryChar(z[0]))
    ensures RunEnd(x + z, pos) == RunEnd(x, pos)
    decreases |x| - pos
  {
    if pos < |x| && QueryChar(x[pos]) {
      RunStays(x, z, pos + 1);
    } else if pos == |x| && z != [] {
      assert (x + z)[pos] == z[0];
    }
  }

  lemma {:induction false} TilesStep(text: string, pos: nat)
    requires pos < |text|
    ensures var n := Reach(text, pos);
            Tiles(text, pos) == if n >= 8 then [Tile(pos, pos + n)] + Tiles(text, pos + n) else Tiles(text, pos + 1)
  {}

  lemma {:induction false} NoTiles(text: string)
    ensures Tiles(text, |text|) == []
  {}

  /** Up to a character outside the alphabet a text has the tiles it would have alone. */
  lemma {:induction false} TilesUpTo(x: string, z: string, pos: nat)
    requires pos <= |x| && (z == [] || !QueryChar(z[0]))
    ensures Tiles(x + z, pos) == Tiles(x, pos) + Tiles(x + z, |x|)
    decreases |x| - pos
  {
    hide RunEnd, Tiles;
    RunStays(x, z, pos);
    var n := Reach(x, pos);
    if pos < |x| {
      TilesStep(x, pos);
      TilesStep(x + z, pos);
      TilesUpTo(x, z, if n >= 8 then pos + n else pos + 1);
    } else {
      assert Tiles(x, pos) == [] by { NoTiles(x); }
    }
  }

  /** Characters outside the alphabet have no tiles. */
  lemma {:induction false} TilesSkip(text: string, a: nat, b: nat)
    requires a <= b <= |text| && forall k :: a <= k < b ==> !QueryChar(text[k])
    ensures Tiles(text, a) == Tiles(text, b)
    decreases b - a
  {
    if a < b {
      assert RunEnd(text, a) == a;
      TilesSkip(text, a + 1, b);
    }
  }

  lemma {:induction false} RunMoves(w: string, y: string, pos: nat)
    requires pos <= |y|
    ensures RunEnd(w + y, |w| + pos) == |w| + RunEnd(y, pos)
    decreases |y| - pos
  {
    if pos < |y| {
      assert (w + y)[|w| + pos] == y[pos];
      RunMoves(w, y, pos + 1);
    }
  }

  lemma {:induction false} TilesMove(w: string, y: string, pos: nat)
    requires pos <= |y|
    ensures Tiles(w + y, |w| + pos) == Moved(Tiles(y, pos), |w|)
    decreases |y| - pos
  {
    hide RunEnd, Tiles;
    RunMoves(w, y, pos);
    var n := Reach(y, pos);
    if pos < |y| {
      TilesStep(y, pos);
      TilesStep(w + y, |w| + pos);
      TilesMove(w, y, if n >= 8 then pos + n else pos + 1);
    } else {
      NoTiles(y);
      NoTiles(w + y);
    }
  }

  predicate NoQueryChar(g: string) {
    g != [] && forall i :: 0 <= i < |g| ==> !QueryChar(g[i])
  }

  /** So the tiles around a gap of other characters are those of the two sides. */
  lemma {:induction false} TilesAround(x: string, g: string, y: string)
    requires NoQueryChar(g)
    ensures Tiles(x + g + y, 0) == Tiles(x, 0) + Moved(Tiles(y, 0), |x| + |g|)
  {
    hide Tiles;
    var text, w := x + g + y, x + g;
    assert text == x + (g + y) && (g + y)[0] == g[0];
    TilesUpTo(x, g + y, 0);
    forall k | |x| <= k < |w| ensures !QueryChar(text[k]) {
      assert text[k] == g[k - |x|];
    }
    TilesSkip(text, |x|, |w|);
    TilesMove(w, y, 0);
  }

  lemma {:induction false} SlicesAfter<T>(p: seq<T>, s: seq<T>, a: nat, b: nat)
    requires a <= b <= |s|
    ensures (p + s)[|p| + a..|p| + b] == s[a..b] && (p + s)[..|p| + a] == p + s[..a]
  {}

  lemma {:induction false} SlicesBefore<T>(s: seq<T>, z: seq<T>, a: nat, b: nat)
    requires a <= b <= |s|
    ensures (s + z)[a..b] == s[a..b] && (s + z)[..a] == s[..a]
  {}

  /** What stands before the second side's bytes does not disturb it. */
  lemma {:induction false} RightTile(y: string, ys: seq<byte>, py: seq<nat>, t: Tile,
                                     w: string, before: seq<byte>, pos: seq<nat>, left: seq<Tile>)
    requires Spells(y, ys, py) && t in Tiles(y, 0) && Offsets(w + y, before + ys, pos) && AfterOther(before)
    requires forall k :: |w| <= k <= |w| + |y| ==> pos[k] == |before| + py[k - |w|]
    requires Tiles(w + y, 0) == left + Moved(Tiles(y, 0), |w|)
    ensures var u := Tile(t.start + |w|, t.end + |w|);
            WrittenOut(w + y, before + ys, pos, u) && Edged(w + y, before + ys, pos, u)
  {
    hide Tiles, Utf8, AfterOther, Offsets, Touched;
    assert WrittenOut(y, ys, py, t) && Edged(y, ys, py, t);
    OffsetsAt(y, ys, py, t.start, t.end);
    OffsetsAt(w + y, before + ys, pos, |w| + t.start, |w| + t.end);
    SlicesAfter(w, y, t.start, t.end);
    SlicesAfter(before, ys, py[t.start], py[t.end]);
    if Touched(y, t) {
      TouchedMoves(y, t, w, left);
    } else if py[t.start] == 0 {
      assert before + ys[..0] == before;
    } else {
      AfterFurther(before, ys[..py[t.start]]);
    }
  }

  lemma {:induction false} TouchedMoves(y: string, t: Tile, w: string, left: seq<Tile>)
    requires Touched(y, t)
    requires Tiles(w + y, 0) == left + Moved(Tiles(y, 0), |w|)
    ensures Touched(w + y, Tile(t.start + |w|, t.end + |w|))
  {
    hide Tiles, Moved;
    var u :| u in Tiles(y, 0) && u.end == t.start;
    InJoin(left, Tiles(y, 0), |w|, Tile(u.start + |w|, u.end + |w|));
  }

  lemma {:induction false} OffsetsAt(text: string, bs: seq<byte>, pos: seq<nat>, a: nat, b: nat)
    requires Offsets(text, bs, pos) && a <= b <= |text|
    ensures |pos| == |text| + 1 && pos[a] <= pos[b] <= |bs|
  {}

  lemma {:induction false} LeftTile(x: string, xs: seq<byte>, px: seq<nat>, t: Tile,
                                    z: string, zs: seq<byte>, pos: seq<nat>, right: seq<Tile>)
    requires Spells(x, xs, px) && t in Tiles(x, 0) && Offsets(x + z, xs + zs, pos)
    requires forall k :: 0 <= k <= |x| ==> pos[k] == px[k]
    requires Tiles(x + z, 0) == Tiles(x, 0) + right
    ensures WrittenOut(x + z, xs + zs, pos, t) && Edged(x + z, xs + zs, pos, t)
  {
    hide Tiles, Utf8, AfterOther;
    assert WrittenOut(x, xs, px, t) && Edged(x, xs, px, t);
    SlicesBefore(x, z, t.start, t.end);
    SlicesBefore(xs, zs, px[t.start], px[t.end]);
  }

  function JoinedPos(px: seq<nat>, gap: nat, size: nat, py: seq<nat>): (pos: seq<nat>)
    requires |px| > 0 && gap > 0
    ensures |pos| == |px| - 1 + gap + |py|
    ensures forall k :: 0 <= k < |px| ==> pos[k] == px[k]
    ensures forall k :: |px| - 1 + gap <= k < |pos| ==> pos[k] == size + py[k - (|px| - 1 + gap)]
    ensures forall k :: |px| <= k < |px| - 1 + gap ==> pos[k] == px[|px| - 1]
  {
    px + seq(gap - 1, _ => px[|px| - 1]) + seq(|py|, k requires 0 <= k < |py| => size + py[k])
  }

  lemma {:induction false} JoinedOffsets(x: string, xs: seq<byte>, px: seq<nat>, g: string, gs: seq<byte>,
                                         y: string, ys: seq<byte>, py: seq<nat>)
    requires Offsets(x, xs, px) && Offsets(y, ys, py) && g != []
    ensures Offsets(x + g + y, xs + gs + ys, JoinedPos(px, |g|, |xs + gs|, py))
  {
    hide JoinedPos;
  }

  /**
   Two texts spelled out, and between them characters outside the alphabet, written in whatever way ends in such a
   character (themselves, references, a section boundary or a comment next to them): the whole is spelled out.
   */
  lemma {:induction false} JoinSpelled(x: string, xs: seq<byte>, g: string, gs: seq<byte>, y: string, ys: seq<byte>)
    requires TilesSpelled(x, xs) && TilesSpelled(y, ys) && NoQueryChar(g) && AfterOther(gs)
    ensures TilesSpelled(x + g + y, xs + gs + ys)
  {
    hide Tiles, Utf8, EndsIn, AfterOther, Spells, JoinedPos;
    var px: seq<nat> :| Spells(x, xs, px);
    var py: seq<nat> :| Spells(y, ys, py);
    SpellsMeans(x, xs, px);
    SpellsMeans(y, ys, py);
    var pos := JoinedPos(px, |g|, |xs + gs|, py);
    JoinedOffsets(x, xs, px, g, gs, y, ys, py);
    forall t | t in Tiles(x + g + y, 0)
      ensures WrittenOut(x + g + y, xs + gs + ys, pos, t) && Edged(x + g + y, xs + gs + ys, pos, t)
    {
      JoinedTile(x, xs, px, g, gs, y, ys, py, t);
    }
    SpellsIf(x + g + y, xs + gs + ys, pos);
  }

  lemma {:induction false} JoinedTile(x: string, xs: seq<byte>, px: seq<nat>, g: string, gs: seq<byte>,
                                      y: string, ys: seq<byte>, py: seq<nat>, t: Tile)
    requires Spells(x, xs, px) && Spells(y, ys, py) && NoQueryChar(g) && AfterOther(gs) && t in Tiles(x + g + y, 0)
    requires Offsets(x + g + y, xs + gs + ys, JoinedPos(px, |g|, |xs + gs|, py))
    ensures var pos := JoinedPos(px, |g|, |xs + gs|, py);
            WrittenOut(x + g + y, xs + gs + ys, pos, t) && Edged(x + g + y, xs + gs + ys, pos, t)
  {
    hide Tiles, Utf8, EndsIn, AfterOther, Spells, JoinedPos, Offsets, WrittenOut, Edged, Utf8Char;
    SpellsMeans(x, xs, px);
    SpellsMeans(y, ys, py);
    TilesAround(x, g, y);
    var pos, n := JoinedPos(px, |g|, |xs + gs|, py), |x + g|;
    InJoin(Tiles(x, 0), Tiles(y, 0), n, t);
    if t in Tiles(x, 0) {
      SameParts(x, g, y);
      SameParts(xs, gs, ys);
      LeftTile(x, xs, px, t, g + y, gs + ys, pos, Moved(Tiles(y, 0), n));
    } else {
      AfterFurther(xs, gs);
      RightTile(y, ys, py, Tile(t.start - n, t.end - n), x + g, xs + gs, pos, Tiles(x, 0));
    }
  }

  lemma {:induction false} SameParts<T>(a: seq<T>, b: seq<T>, c: seq<T>)
    ensures a + b + c == a + (b + c)
  {}

  lemma {:induction false} SpellsMeans(text: string, bs: seq<byte>, pos: seq<nat>)
    requires Spells(text, bs, pos)
    ensures Offsets(text, bs, pos) && |pos| == |text| + 1
  {
    hide Tiles, Utf8;
  }

  lemma {:induction false} SpellsIf(text: string, bs: seq<byte>, pos: seq<nat>)
    requires Offsets(text, bs, pos)
    requires forall t :: t in Tiles(text, 0) ==> WrittenOut(text, bs, pos, t) && Edged(text, bs, pos, t)
    ensures Spells(text, bs, pos)
  {
    hide Tiles, Utf8;
  }

  lemma {:induction false} AfterFurther(p: seq<byte>, b: seq<byte>)
    requires AfterOther(b)
    ensures AfterOther(p + b)
  {
    hide EndsIn;
    var d: char :| !QueryChar(d) && EndsIn(b, Utf8Char(d));
    EndsFurther(p, b, Utf8Char(d));
  }

  /** `&amp;` */
  const AMP: seq<byte> := [38, 97, 109, 112, 59]

  /** In particular one `&amp;` between two plain stretches does not disturb the tiles. */
  lemma {:induction false} ReferenceIsLegible(x: string, y: string)
    ensures TilesSpelled(x + "&" + y, Utf8(x) + AMP + Utf8(y)) && TilesWrittenOut(x + "&" + y, Utf8(x) + AMP + Utf8(y))
  {
    hide Utf8, Tiles, TilesSpelled, TilesWrittenOut;
    PlainIsSpelled(x);
    PlainIsSpelled(y);
    assert Utf8Char(';') == [59] && EndsIn(AMP, [59]);
    JoinSpelled(x, Utf8(x), "&", AMP, y, Utf8(y));
    SpelledIsWrittenOut(x + "&" + y, Utf8(x) + AMP + Utf8(y));
  }
}
