/** What the scan makes of a tag that is not as a printer would write it. */
module ScannerLaws {
  import opened Sequences
  import opened Scanner

  /** ASCII white space, as Python's `bytes.strip` and `bytes.split` have it. */
  predicate White(b: byte) {
    b == 9 || b == 10 || b == 11 || b == 12 || b == 13 || b == 32
  }

  /** Of the ASCII characters just the six white ones end a name. */
  lemma {:induction false} NameEndsAtWhite(b: byte)
    requires b < 128 && b != 58
    ensures ParseHead([97, b, 98]) == Some(Head([97], false, false)) <==> White(b)
  {
    var raw := [97, b, 98];
    assert LStrip(raw) == raw && RStrip(raw) == raw;
    assert raw[1..] == [b, 98] && raw[1..][1..] == [98] && [98][1..] == [];
    assert FirstWord([98]) == [98];
    assert FirstWord(raw) == if Space(b) then [97] else [97, b, 98];
    forall j ensures !At([97, b, 98], [COLON], j) && !At([97], [COLON], j) {
      if 0 <= j < 3 {
        NotAt(raw, [COLON], j, 0);
      }
      if j == 0 {
        NotAt([97], [COLON], j, 0);
      }
    }
  }

  lemma {:induction false} LStripPast(ws: seq<byte>, s: seq<byte>)
    requires (forall i :: 0 <= i < |ws| ==> White(ws[i])) && (s == [] || !White(s[0]))
    ensures LStrip(ws + s) == s
    decreases |ws|
  {
    if ws == [] {
      assert ws + s == s;
    } else {
      assert (ws + s)[1..] == ws[1..] + s;
      LStripPast(ws[1..], s);
    }
  }

  /** White space in front of the name does not matter, in an opening tag and behind the slash of a closing one. */
  lemma {:induction false} WhiteInFront(ws: seq<byte>, s: seq<byte>)
    requires (forall i :: 0 <= i < |ws| ==> White(ws[i])) && s != [] && !White(s[0]) && s[0] != SLASH
    ensures ParseHead(ws + s) == ParseHead(s)
    ensures ParseHead([SLASH] + (ws + s)) == ParseHead([SLASH] + s)
  {
    hide RStrip, FirstWord, Local, Ascii;
    LStripPast(ws, s);
    LStripPast([], s);
    assert [] + s == s && ([SLASH] + (ws + s))[1..] == ws + s && ([SLASH] + s)[1..] == s;
    if ws != [] {
      assert (ws + s)[0] == ws[0] && White(ws[0]);
    }
  }

  /** A declaration is no tag, and a closing tag is never taken for a self-closing one. */
  lemma {:induction false} NoElement(rest: seq<byte>)
    ensures ParseHead([BANG] + rest).None?
    ensures ParseHead([SLASH] + rest).Some? ==> !ParseHead([SLASH] + rest).value.selfClosing
  {
    var raw := [BANG] + rest;
    assert LStrip(raw) == raw;
    RStripKeeps(raw);
    var body := RStrip(raw);
    var cut := if body[|body| - 1] == SLASH then RStrip(body[..|body| - 1]) else body;
    if body[|body| - 1] == SLASH {
      RStripKeeps(body[..|body| - 1]);
    }
    assert FirstWord(cut)[0] == BANG;
  }

  /** Stripping at the right keeps a first byte that is not white. */
  lemma {:induction false} RStripKeeps(s: seq<byte>)
    requires s != [] && !White(s[0])
    ensures RStrip(s) != [] && RStrip(s)[0] == s[0]
    decreases |s|
  {
    if |s| > 1 && Space(s[|s| - 1]) {
      RStripKeeps(s[..|s| - 1]);
    }
  }

  // ----- where the scan stops -----

  /** The opening of a comment, a CDATA section or an instruction stands there, and its closing nowhere behind it. */
  ghost predicate Unclosed(xml: seq<byte>, start: nat) {
    || (At(xml, [60, 33, 45, 45], start) && forall j :: start + 4 <= j ==> !At(xml, [45, 45, 62], j))
    || (At(xml, [60, 33, 91, 67, 68, 65, 84, 65, 91], start) && forall j :: start + 9 <= j ==> !At(xml, [93, 93, 62], j))
    || (At(xml, [60, 63], start) && forall j :: start + 2 <= j ==> !At(xml, [63, 62], j))
  }

  /** Some such opening stands there. */
  ghost predicate Special(xml: seq<byte>, start: nat) {
    At(xml, [60, 33, 45, 45], start) || At(xml, [60, 33, 91, 67, 68, 65, 84, 65, 91], start) || At(xml, [60, 63], start)
  }

  /** `close` is a `>` behind the position with no quote open: each quote before it is closed by the same one. */
  ghost predicate Bare(xml: seq<byte>, from: nat, close: nat, quote: Option<byte>)
    decreases |xml| - from
  {
    from < |xml| && from <= close
    && (match quote
        case Some(q) => Bare(xml, from + 1, close, if xml[from] == q then None else quote)
        case None =>
          if xml[from] == 34 || xml[from] == 39 then Bare(xml, from + 1, close, Some(xml[from]))
          else if xml[from] == 62 then from == close
          else Bare(xml, from + 1, close, None))
  }

  /** No `>` ends the tag. */
  ghost predicate NoBare(xml: seq<byte>, from: nat) {
    forall close: nat :: !Bare(xml, from, close, None)
  }

  lemma {:induction false} TagEndIsBare(xml: seq<byte>, i: nat, quote: Option<byte>)
    ensures TagEnd(xml, i, quote) >= 0 ==> Bare(xml, i, TagEnd(xml, i, quote), quote)
    ensures forall close: nat :: Bare(xml, i, close, quote) ==> TagEnd(xml, i, quote) == close
    decreases |xml| - i
  {
    if i < |xml| {
      TagEndIsBare(xml, i + 1,
                   if quote.Some? then (if xml[i] == quote.value then None else quote)
                   else if Quote(xml[i]) then Some(xml[i]) else None);
    }
  }

  /** The first `<` from a position on. */
  ghost predicate FirstAngle(xml: seq<byte>, pos: nat, start: nat) {
    pos <= start < |xml| && xml[start] == 60 && forall j :: pos <= j < start ==> xml[j] != 60
  }

  lemma {:induction false} FoundAngle(xml: seq<byte>, pos: nat)
    ensures var r := Find(xml, [LT], pos);
            (r < 0 ==> forall j :: pos <= j < |xml| ==> xml[j] != 60) && (r >= 0 ==> FirstAngle(xml, pos, r))
  {
    var r := Find(xml, [LT], pos);
    forall j | pos <= j < |xml| && xml[j] == 60 ensures At(xml, [LT], j) {
      assert xml[j..j + 1] == [xml[j]];
    }
    if r >= 0 {
      ByteAt(xml, [LT], r, 0);
    }
  }

  /**
   The scan stops exactly when no `<` is left, or the next one opens a comment, section or instruction that is not
   closed, or a tag that no bare `>` ends; otherwise it goes on, past the closing or past that `>`.
   */
  lemma {:induction false} StopsExactly(xml: seq<byte>, pos: nat)
    ensures Next(xml, pos).Stop? <==>
            || (forall j :: pos <= j < |xml| ==> xml[j] != 60)
            || (exists start: nat :: FirstAngle(xml, pos, start) && Unclosed(xml, start))
            || (exists start: nat :: FirstAngle(xml, pos, start) && !Special(xml, start) && NoBare(xml, start + 1))
  {
    hide Find, At, ParseHead, Bare, Unclosed, Special, NoBare, TagEnd;
    FoundAngle(xml, pos);
    var r := Find(xml, [LT], pos);
    if r >= 0 {
      assert forall start: nat :: FirstAngle(xml, pos, start) ==> start == r;
      StopsAt(xml, pos, r);
    }
  }

  lemma {:induction false} StopsAt(xml: seq<byte>, pos: nat, start: nat)
    requires Find(xml, [LT], pos) == start
    ensures Next(xml, pos).Stop? <==> Unclosed(xml, start) || (!Special(xml, start) && NoBare(xml, start + 1))
  {
    hide Find, At, ParseHead, Bare, TagEnd;
    OnlyOneOpens(xml, start);
    TagEndIsBare(xml, start + 1, None);
    PassStops(xml, start, COMMENT_OPEN, COMMENT_CLOSE);
    PassStops(xml, start, CDATA_OPEN, CDATA_CLOSE);
    PassStops(xml, start, PI_OPEN, PI_CLOSE);
  }

  lemma {:induction false} PassStops(xml: seq<byte>, start: nat, open: seq<byte>, close: seq<byte>)
    ensures PassOver(xml, start, open, close).Stop? <==> forall j :: start + |open| <= j ==> !At(xml, close, j)
  {
    hide At;
  }

  lemma {:induction false} OnlyOneOpens(xml: seq<byte>, start: nat)
    ensures At(xml, COMMENT_OPEN, start) ==> !At(xml, CDATA_OPEN, start) && !At(xml, PI_OPEN, start)
    ensures At(xml, CDATA_OPEN, start) ==> !At(xml, PI_OPEN, start)
  {
    if At(xml, COMMENT_OPEN, start) {
      ByteAt(xml, COMMENT_OPEN, start, 1);
      ByteAt(xml, COMMENT_OPEN, start, 2);
      NotAt(xml, CDATA_OPEN, start, 2);
      NotAt(xml, PI_OPEN, start, 1);
    }
    if At(xml, CDATA_OPEN, start) {
      ByteAt(xml, CDATA_OPEN, start, 1);
      NotAt(xml, PI_OPEN, start, 1);
    }
  }
}
