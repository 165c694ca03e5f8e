/** The query alphabet, UTF-8, the one-character replacement and the candidate queries of a text. */
module Queries {
  import opened Sequences
  import opened ScanStability

  predicate Digit(c: char) { '0' <= c <= '9' }

  predicate Lower(c: char) { 'a' <= c <= 'z' }

  predicate Upper(c: char) { 'A' <= c <= 'Z' }

  predicate Alnum(c: char) { Digit(c) || Lower(c) || Upper(c) }

  predicate Han(c: char) { '\U{4e00}' <= c <= '\U{9fff}' }

  predicate QueryChar(c: char) { Alnum(c) || Han(c) }

  predicate QueryChars(s: string) {
    forall i :: 0 <= i < |s| ==> QueryChar(s[i])
  }

  /** `QUERY_RE.fullmatch` */
  predicate IsQuery(s: string) {
    8 <= |s| <= 24 && QueryChars(s)
  }

  // ----- UTF-8, section 3 of RFC 3629 -----

  function Utf8Char(c: char): (b: seq<byte>)
    ensures 1 <= |b| <= 4
  {
    var n := c as int;
    if n < 0x80 then [n]
    else if n < 0x800 then [0xC0 + n / 64, 0x80 + n % 64]
    else if n < 0x10000 then [0xE0 + n / 4096, 0x80 + n / 64 % 64, 0x80 + n % 64]
    else [0xF0 + n / 262144, 0x80 + n / 4096 % 64, 0x80 + n / 64 % 64, 0x80 + n % 64]
  }

  function Utf8(s: string): seq<byte> {
    if s == [] then [] else Utf8Char(s[0]) + Utf8(s[1..])
  }

  lemma {:induction false} Utf8Concat(a: string, b: string)
    ensures Utf8(a + b) == Utf8(a) + Utf8(b)
    decreases |a|
  {
    if a == [] {
      assert a + b == b;
    } else {
      assert (a + b)[1..] == a[1..] + b;
      Utf8Concat(a[1..], b);
    }
  }

  lemma {:induction false} Utf8Slices(s: string, i: nat, j: nat)
    requires i <= j <= |s|
    ensures Utf8(s) == Utf8(s[..i]) + Utf8(s[i..j]) + Utf8(s[j..])
  {
    assert s == s[..i] + s[i..j] + s[j..];
    Utf8Concat(s[..i] + s[i..j], s[j..]);
    Utf8Concat(s[..i], s[i..j]);
  }

  lemma {:induction false} QueryBytes(s: string)
    requires QueryChars(s)
    ensures forall i :: 0 <= i < |Utf8(s)| ==> Word(Utf8(s)[i])
    ensures |Utf8(s)| >= |s|
  {
    if s != [] {
      QueryBytes(s[1..]);
    }
  }

  // ----- replacement_for -----

  function FirstAlnum(q: string, i: nat): (r: int)
    ensures r == -1 || (i <= r < |q| && Alnum(q[r]))
    ensures r == -1 ==> forall k :: i <= k < |q| ==> !Alnum(q[k])
    decreases |q| - i
  {
    if i >= |q| then -1 else if Alnum(q[i]) then i else FirstAlnum(q, i + 1)
  }

  function Bump(c: char): (r: char)
    requires Alnum(c)
  {
    if Digit(c) then ((c as int - 48 + 1) % 10 + 48) as char
    else if Lower(c) then ((c as int - 97 + 1) % 26 + 97) as char
    else ((c as int - 65 + 1) % 26 + 65) as char
  }

  /** `replacement_for` up to its assertion. */
  function ReplacementFor(q: string): string
    requires q != []
  {
    var i := FirstAlnum(q, 0);
    if i >= 0 then q[i := Bump(q[i])]
    else q[|q| - 1 := if q[|q| - 1] != '\U{4e4b}' then '\U{4e4b}' else '\U{7684}']
  }

  /** The index of the one character that changes. */
  function ChangedAt(q: string): (i: nat)
    requires q != []
    ensures i < |q|
  {
    if FirstAlnum(q, 0) >= 0 then FirstAlnum(q, 0) else |q| - 1
  }

  /** Exactly one character changes, for every non-empty string. */
  lemma {:induction false} ReplacementDiffers(q: string)
    requires q != []
    ensures var r := ReplacementFor(q);
            && |r| == |q| && r[ChangedAt(q)] != q[ChangedAt(q)]
            && forall k :: 0 <= k < |q| && k != ChangedAt(q) ==> r[k] == q[k]
  {}

  /** An ASCII digit or letter, by its code. */
  predicate AsciiWord(code: int) {
    48 <= code <= 57 || 65 <= code <= 90 || 97 <= code <= 122
  }

  /** The code after it, with the last of each kind followed by the first. */
  function Following(code: int): int {
    if code == 57 then 48 else if code == 90 then 65 else if code == 122 then 97 else code + 1
  }

  /**
   Which character changes to what: the first ASCII digit or letter to the one that follows it; without any, the last
   character to U+4E4B, or to U+7684 when it is U+4E4B already.
   */
  lemma {:induction false} ReplacementExactly(q: string) returns (i: nat)
    requires q != []
    ensures i < |q| && forall k :: 0 <= k < |q| && k != i ==> ReplacementFor(q)[k] == q[k]
    ensures (forall k :: 0 <= k < i ==> !AsciiWord(q[k] as int)) && (!AsciiWord(q[i] as int) ==> i == |q| - 1)
    ensures ReplacementFor(q)[i] as int ==
            if AsciiWord(q[i] as int) then Following(q[i] as int) else if q[i] as int == 0x4E4B then 0x7684 else 0x4E4B
  {
    i := ChangedAt(q);
    ReplacementDiffers(q);
    FirstWordChar(q, 0);
    if FirstAlnum(q, 0) >= 0 {
      BumpFollows(q[i]);
    }
  }

  lemma {:induction false} BumpFollows(c: char)
    requires Alnum(c)
    ensures AsciiWord(c as int) && Bump(c) as int == Following(c as int)
  {}

  lemma {:induction false} FirstWordChar(q: string, from: nat)
    requires from <= |q|
    ensures var r := FirstAlnum(q, from);
            if r < 0 then forall k :: from <= k < |q| ==> !AsciiWord(q[k] as int)
            else AsciiWord(q[r] as int) && forall k :: from <= k < r ==> !AsciiWord(q[k] as int)
    decreases |q| - from
  {
    if from < |q| && !Alnum(q[from]) {
      FirstWordChar(q, from + 1);
    }
  }

  /** The alphabet and the length of a query, by codes. */
  lemma {:induction false} QueryByCode(s: string)
    ensures IsQuery(s) <==>
            8 <= |s| <= 24 && forall i :: 0 <= i < |s| ==> AsciiWord(s[i] as int) || 0x4E00 <= s[i] as int <= 0x9FFF
  {}

  lemma {:induction false} Utf8Update(q: string, i: nat, c: char)
    requires i < |q|
    ensures Utf8(q) == Utf8(q[..i]) + Utf8Char(q[i]) + Utf8(q[i + 1..])
    ensures Utf8(q[i := c]) == Utf8(q[..i]) + Utf8Char(c) + Utf8(q[i + 1..])
  {
    hide Utf8Char;
    var r := q[i := c];
    Utf8Slices(q, i, i + 1);
    Utf8Slices(r, i, i + 1);
    assert r[..i] == q[..i] && r[i + 1..] == q[i + 1..];
    Utf8One(q[i]);
    Utf8One(c);
    assert q[i..i + 1] == [q[i]] && r[i..i + 1] == [c];
  }

  lemma {:induction false} Utf8One(c: char)
    ensures Utf8([c]) == Utf8Char(c)
  {
    assert [c][1..] == [];
    assert Utf8([]) == [];
  }

  /** The assertion on the byte length, exactly: an ASCII digit or letter somewhere, or a three-byte last character. */
  lemma {:induction false} ReplacementKeepsLength(q: string)
    requires q != []
    ensures |Utf8(ReplacementFor(q))| == |Utf8(q)| <==> FirstAlnum(q, 0) >= 0 || |Utf8Char(q[|q| - 1])| == 3
  {
    var i := ChangedAt(q);
    Utf8Update(q, i, ReplacementFor(q)[i]);
  }

  /** On a query the replacement is a query again and its bytes may stand for the query's bytes in any scan. */
  lemma {:induction false} ReplacementOfQuery(q: string)
    requires IsQuery(q)
    ensures IsQuery(ReplacementFor(q)) && ReplacementFor(q) != q
    ensures Replaces(Utf8(q), Utf8(ReplacementFor(q)))
    ensures |Utf8(q)| >= 8
  {
    var i := ChangedAt(q);
    var r := ReplacementFor(q);
    ReplacementDiffers(q);
    hide Utf8, Utf8Char, Word, Replaces, ReplacementFor;
    CharReplaces(q);
    assert QueryChars(r);
    Utf8Update(q, i, r[i]);
    assert r == q[i := r[i]];
    QueryBytes(q);
    ReplacesSelf(q[..i]);
    ReplacesSelf(q[i + 1..]);
    ReplacesConcat(Utf8(q[..i]), Utf8(q[..i]), Utf8Char(q[i]), Utf8Char(r[i]));
    ReplacesConcat(Utf8(q[..i]) + Utf8Char(q[i]), Utf8(q[..i]) + Utf8Char(r[i]), Utf8(q[i + 1..]), Utf8(q[i + 1..]));
  }

  lemma {:induction false} CharReplaces(q: string)
    requires q != [] && QueryChars(q)
    ensures var i := ChangedAt(q); var c := ReplacementFor(q)[i];
            QueryChar(c) && Replaces(Utf8Char(q[i]), Utf8Char(c))
  {}

  lemma {:induction false} ReplacesSelf(q: string)
    requires QueryChars(q)
    ensures Replaces(Utf8(q), Utf8(q))
  {
    QueryBytes(q);
  }

  lemma {:induction false} ReplacesConcat(a: seq<byte>, b: seq<byte>, c: seq<byte>, d: seq<byte>)
    requires Replaces(a, b) && Replaces(c, d)
    ensures Replaces(a + c, b + d)
  {}

  /** The two byte forms differ: decoding is not needed to see the edit. */
  lemma {:induction false} ReplacementBytesDiffer(q: string)
    requires IsQuery(q)
    ensures Utf8(ReplacementFor(q)) != Utf8(q)
  {
    var i := ChangedAt(q);
    var r := ReplacementFor(q);
    ReplacementDiffers(q);
    Utf8Update(q, i, r[i]);
    var n, m := |Utf8(q[..i])|, |Utf8Char(q[i])|;
    assert Utf8(q)[n..n + m] == Utf8Char(q[i]);
    assert |Utf8Char(r[i])| == m;
    assert Utf8(r)[n..n + m] == Utf8Char(r[i]);
    Utf8CharInjective(q[i], r[i]);
  }

  lemma {:induction false} Utf8CharInjective(a: char, b: char)
    requires QueryChar(a) && QueryChar(b) && a != b
    ensures Utf8Char(a) != Utf8Char(b)
  {
    if Han(a) && Han(b) {
      HanValue(a);
      HanValue(b);
    }
  }

  lemma {:induction false} HanValue(c: char)
    requires Han(c)
    ensures var b := Utf8Char(c);
            |b| == 3 && c as int == (b[0] as int - 0xE0) * 4096 + (b[1] as int - 0x80) * 64 + (b[2] as int - 0x80)
  {
    var n := c as int;
    assert n == 64 * (n / 64) + n % 64;
    assert n / 64 == 64 * (n / 64 / 64) + n / 64 % 64;
    assert n / 64 / 64 == n / 4096;
  }

  // ----- _candidate_queries -----

  datatype Tile = Tile(start: nat, end: nat)

  /** The end of the stretch of query characters that contains `i`, or `i` itself. */
  function RunEnd(text: string, i: nat): (e: nat)
    requires i <= |text|
    ensures i <= e <= |text| && (forall k :: i <= k < e ==> QueryChar(text[k])) && (e < |text| ==> !QueryChar(text[e]))
    decreases |text| - i
  {
    if i < |text| && QueryChar(text[i]) then RunEnd(text, i + 1) else i
  }

  /** How far a greedy match of the pattern at `i` reaches. */
  function Reach(text: string, i: nat): nat
    requires i <= |text|
  {
    if RunEnd(text, i) - i > 24 then 24 else RunEnd(text, i) - i
  }

  /** `QUERY_RE.finditer`: leftmost, greedy, not overlapping. */
  function Tiles(text: string, pos: nat): seq<Tile>
    requires pos <= |text|
    decreases |text| - pos
  {
    if pos == |text| then []
    else if Reach(text, pos) >= 8 then [Tile(pos, pos + Reach(text, pos))] + Tiles(text, pos + Reach(text, pos))
    else Tiles(text, pos + 1)
  }

  function Cut(s: string): string {
    if |s| > 24 then s[..24] else s
  }

  function TileTexts(text: string, tiles: seq<Tile>): seq<string>
    requires forall k :: 0 <= k < |tiles| ==> tiles[k].start <= tiles[k].end <= |text|
  {
    seq(|tiles|, k requires 0 <= k < |tiles| => Cut(text[tiles[k].start..tiles[k].end]))
  }

  ghost predicate TilesWell(text: string, pos: nat, tiles: seq<Tile>) {
    && (forall k :: 0 <= k < |tiles| ==>
          (pos <= tiles[k].start && tiles[k].end <= |text| && 8 <= tiles[k].end - tiles[k].start <= 24))
    && (forall k, i :: 0 <= k < |tiles| && tiles[k].start <= i < tiles[k].end ==> i < |text| && QueryChar(text[i]))
    && (forall j, k :: 0 <= j < k < |tiles| ==> tiles[j].end <= tiles[k].start)
  }

  /** Tiles come in order, apart, 8 to 24 characters long, all of them query characters. */
  lemma {:induction false} TilesShape(text: string, pos: nat)
    requires pos <= |text|
    ensures TilesWell(text, pos, Tiles(text, pos))
    decreases |text| - pos
  {
    if pos < |text| {
      hide TilesWell;
      var n := Reach(text, pos);
      TilesShape(text, if n >= 8 then pos + n else pos + 1);
      if n >= 8 {
        TilesCons(text, pos, pos + n, Tiles(text, pos + n));
      } else {
        TilesLower(text, pos, Tiles(text, pos + 1));
      }
    }
  }

  lemma {:induction false} TilesLower(text: string, pos: nat, tiles: seq<Tile>)
    requires TilesWell(text, pos + 1, tiles)
    ensures TilesWell(text, pos, tiles)
  {}

  lemma {:induction false} TilesCons(text: string, a: nat, b: nat, tiles: seq<Tile>)
    requires a + 8 <= b <= a + 24 && b <= |text| && (forall i :: a <= i < b ==> QueryChar(text[i]))
    requires TilesWell(text, b, tiles)
    ensures TilesWell(text, a, [Tile(a, b)] + tiles)
  {}

  function CandidateQueries(text: string): seq<string> {
    if IsQuery(text) then [text]
    else
      TilesShape(text, 0);
      TileTexts(text, Tiles(text, 0))
  }

  /** The tiling of a stretch of query characters `[a, b)`: pieces of 24, then the rest if it is long enough. */
  function RunTiles(a: nat, b: nat): seq<Tile>
    requires a <= b
    decreases b - a
  {
    if b - a < 8 then []
    else if b - a <= 24 then [Tile(a, b)]
    else [Tile(a, a + 24)] + RunTiles(a + 24, b)
  }

  lemma {:induction false} RunTilesCount(a: nat, b: nat)
    requires a <= b
    ensures |RunTiles(a, b)| == (b - a) / 24 + (if (b - a) % 24 >= 8 then 1 else 0)
    decreases b - a
  {
    if b - a > 24 {
      RunTilesCount(a + 24, b);
    }
  }

  lemma {:induction false} SameRun(text: string, i: nat, j: nat)
    requires i <= j <= |text| && j <= RunEnd(text, i)
    ensures RunEnd(text, j) == RunEnd(text, i)
    decreases j - i
  {
    if i < j {
      SameRun(text, i + 1, j);
    }
  }

  lemma {:induction false} ShortRun(text: string, pos: nat)
    requires pos <= |text| && RunEnd(text, pos) - pos < 8
    ensures Tiles(text, pos) == Tiles(text, RunEnd(text, pos))
    decreases |text| - pos
  {
    if pos < RunEnd(text, pos) {
      SameRun(text, pos, pos + 1);
      ShortRun(text, pos + 1);
    }
  }

  /**
   The tiling, stretch by stretch: a stretch of n query characters yields n div 24 tiles of 24 and one more when
   n mod 24 is at least 8, and a character outside the alphabet yields none.
   */
  lemma {:induction false} TilesByRun(text: string, a: nat)
    requires a <= |text|
    ensures var b := RunEnd(text, a);
            && Tiles(text, a) == RunTiles(a, b) + Tiles(text, b)
            && |RunTiles(a, b)| == (b - a) / 24 + (if (b - a) % 24 >= 8 then 1 else 0)
            && (b < |text| ==> Tiles(text, b) == Tiles(text, b + 1))
    decreases |text| - a
  {
    hide RunEnd, Tiles;
    var b := RunEnd(text, a);
    RunTilesCount(a, b);
    RunStops(text, b, a);
    if b - a < 8 {
      ShortRun(text, a);
    } else {
      var c := a + Reach(text, a);
      SameRun(text, a, c);
      FirstTile(text, a);
      if b - a > 24 {
        TilesByRun(text, c);
        assert [Tile(a, c)] + (RunTiles(c, b) + Tiles(text, b)) == RunTiles(a, b) + Tiles(text, b);
      } else {
        assert [Tile(a, c)] + Tiles(text, b) == RunTiles(a, b) + Tiles(text, b);
      }
    }
  }

  lemma {:induction false} FirstTile(text: string, a: nat)
    requires a <= |text| && Reach(text, a) >= 8
    ensures Tiles(text, a) == [Tile(a, a + Reach(text, a))] + Tiles(text, a + Reach(text, a))
  {}

  lemma {:induction false} RunStops(text: string, b: nat, a: nat)
    requires a <= |text| && b == RunEnd(text, a)
    ensures b < |text| ==> Tiles(text, b) == Tiles(text, b + 1)
  {
    if b < |text| {
      assert RunEnd(text, b) == b;
    }
  }

  /** The full-match shortcut gives what the general scan gives. */
  lemma {:induction false} ShortcutAgrees(text: string)
    requires IsQuery(text)
    ensures Tiles(text, 0) == [Tile(0, |text|)]
  {
    AllRun(text, 0);
    assert Tiles(text, |text|) == [];
  }

  lemma {:induction false} AllRun(text: string, i: nat)
    requires QueryChars(text) && i <= |text|
    ensures RunEnd(text, i) == |text|
    decreases |text| - i
  {
    if i < |text| {
      AllRun(text, i + 1);
    }
  }

  /** Every candidate is a query, is the text of its tile, and the cut to 24 characters never applies. */
  lemma {:induction false} CandidatesAreTiles(text: string)
    ensures var tiles, cands := Tiles(text, 0), CandidateQueries(text);
            && TilesWell(text, 0, tiles) && |cands| == |tiles|
            && forall k :: 0 <= k < |cands| ==> cands[k] == text[tiles[k].start..tiles[k].end] && IsQuery(cands[k])
  {
    TilesShape(text, 0);
    if IsQuery(text) {
      ShortcutAgrees(text);
      assert text[0..|text|] == text;
    }
  }

  /** Any eight query characters in a row meet a tile. */
  lemma {:induction false} TilesCover(text: string, pos: nat, i: nat)
    requires pos <= i && i + 8 <= |text| && forall k :: i <= k < i + 8 ==> QueryChar(text[k])
    ensures exists t :: t in Tiles(text, pos) && t.start < i + 8 && i < t.end
    decreases |text| - pos
  {
    var n := Reach(text, pos);
    if n >= 8 {
      var t := Tile(pos, pos + n);
      assert t in Tiles(text, pos);
      if t.end <= i {
        TilesCover(text, pos + n, i);
      }
    } else {
      if pos == i {
        LongRun(text, i, 8);
      }
      TilesCover(text, pos + 1, i);
    }
  }

  lemma {:induction false} LongRun(text: string, i: nat, n: nat)
    requires i + n <= |text| && forall k :: i <= k < i + n ==> QueryChar(text[k])
    ensures RunEnd(text, i) >= i + n
  {
    var e := RunEnd(text, i);
    assert e < |text| ==> !QueryChar(text[e]);
  }
}
