/** Which passages a leaf offers and which suit, told by characters, words and occurrences. */
module PassageLaws {
  import opened Sequences
  import opened Queries
  import opened Uniqueness
  import opened Passages
  import L = ProbeLaws

  // ----- words -----

  predicate AllWhite(s: string) {
    forall i :: 0 <= i < |s| ==> L.White(s[i] as int)
  }

  predicate NoneWhite(s: string) {
    forall i :: 0 <= i < |s| ==> !L.White(s[i] as int)
  }

  lemma {:induction false} SpaceIsWhite(c: char)
    ensures Space(c) <==> L.White(c as int)
  {
    hide P.Blank, L.White;
    L.BlankIsWhite(c);
  }

  /**
   The words of a text: past white space the next word reaches to the next white character or to the end, and the rest
   is split in the same way.
   */
  lemma {:induction false} WordsExactly(white: string, word: string, rest: string)
    requires AllWhite(white) && NoneWhite(word) && word != "" && (rest == "" || L.White(rest[0] as int))
    ensures Words(white) == [] && Words(white + word + rest) == [word] + Words(rest)
    decreases |white|
  {
    hide L.White, Space;
    if white == "" {
      assert white + word + rest == word + rest;
      forall i | 0 <= i < |word| ensures !Space(word[i]) {
        SpaceIsWhite(word[i]);
      }
      if rest != "" {
        SpaceIsWhite(rest[0]);
      }
      WordFirst(word, rest);
      NoWords();
    } else {
      SpaceIsWhite(white[0]);
      assert (white + word + rest)[1..] == white[1..] + word + rest;
      WordsExactly(white[1..], word, rest);
    }
  }

  /** Words are joined by one space each. */
  lemma {:induction false} JoinedBySpaces(ws: seq<string>, w: string)
    ensures JoinWords([w]) == w && (ws != [] ==> JoinWords(ws + [w]) == JoinWords(ws) + " " + w)
  {
    assert (ws + [w])[..|ws|] == ws && (ws + [w])[|ws|] == w;
  }

  // ----- candidates -----

  /** 12 to 40 characters, each alphanumeric, white or one of the unified ideographs U+4E00 to U+9FFF. */
  ghost predicate PassageLike(alnum: char -> bool, c: string) {
    && 12 <= |c| <= 40
    && forall k :: 0 <= k < |c| ==> alnum(c[k]) || L.White(c[k] as int) || 0x4E00 <= c[k] as int <= 0x9FFF
  }

  /** `c` joins the given number of the words, from the i-th on. */
  ghost predicate Joins(ws: seq<string>, width: nat, i: nat, c: string) {
    i + width <= |ws| && c == JoinWords(ws[i..i + width])
  }

  lemma {:induction false} FitsIsLike(alnum: char -> bool, c: string)
    ensures Fits(alnum, c) <==> PassageLike(alnum, c)
  {
    hide Space, L.White;
    forall k | 0 <= k < |c| ensures Space(c[k]) <==> L.White(c[k] as int) {
      SpaceIsWhite(c[k]);
    }
  }

  lemma {:induction false} OfWidthExactly(alnum: char -> bool, ws: seq<string>, width: nat, n: nat, c: string)
    requires n == 0 || n - 1 + width <= |ws|
    ensures c in OfWidth(alnum, ws, width, n) <==>
            Fits(alnum, c) && exists i: nat :: i < n && Joins(ws, width, i, c)
  {
    hide Fits, JoinWords;
    if n > 0 {
      OfWidthExactly(alnum, ws, width, n - 1, c);
      var last := JoinWords(ws[n - 1..n - 1 + width]);
      assert c in OfWidth(alnum, ws, width, n) <==> c in OfWidth(alnum, ws, width, n - 1) || (c == last && Fits(alnum, last));
      if c == last {
        assert Joins(ws, width, n - 1, c);
      }
    }
  }

  /** The candidates of a leaf are exactly the stretches of three or four of its words that are like a passage. */
  lemma {:induction false} CandidatesExactly(alnum: char -> bool, leaf: string, c: string)
    ensures c in Candidates(alnum, leaf) <==>
            PassageLike(alnum, c) && exists width: nat, i: nat :: (width == 3 || width == 4) && Joins(Words(leaf), width, i, c)
  {
    hide Words, Fits, JoinWords, OfWidth, Firsts, PassageLike;
    var ws := Words(leaf);
    var four, three := OfWidth(alnum, ws, 4, Starts(ws, 4)), OfWidth(alnum, ws, 3, Starts(ws, 3));
    FirstsMembers(four + three);
    OfWidthExactly(alnum, ws, 4, Starts(ws, 4), c);
    OfWidthExactly(alnum, ws, 3, Starts(ws, 3), c);
    FitsIsLike(alnum, c);
    if width: nat, i: nat :| (width == 3 || width == 4) && Joins(ws, width, i, c) {
      assert i < Starts(ws, width);
      if width == 3 {
        assert Joins(ws, 3, i, c);
      } else {
        assert Joins(ws, 4, i, c);
      }
    }
    if c in four + three {
      var width := if c in four then 4 else 3;
      var i: nat :| i < Starts(ws, width) && Joins(ws, width, i, c);
    }
  }

  // ----- suitable passages -----

  /**
   A passage suits exactly when it stands in one paragraph, once, and in no other; its bytes are once in the raw member;
   and neither it nor a passage picked before is part of the other.
   */
  lemma {:induction false} SuitableExactly(d: Doc, picked: seq<Pick>, c: string)
    requires c != "" && NEWLINE !in c
    ensures Suitable(d, picked, c) <==>
            && InOne(d.paras, c) && Once(d.raw, Utf8(c))
            && forall k :: 0 <= k < |picked| ==> Never(picked[k].passage, c) && Never(c, picked[k].passage)
  {
    hide Count, JoinLines, Utf8, InOne, Once, Never, Within;
    OneInJoined(d.paras, c);
    NonEmptyBytes(c);
    CountedOnce(d.raw, Utf8(c));
    forall k | 0 <= k < |picked|
      ensures Within(c, picked[k].passage) <==> !Never(picked[k].passage, c)
      ensures Within(picked[k].passage, c) <==> !Never(c, picked[k].passage)
    {
      WithinIs(c, picked[k].passage);
      WithinIs(picked[k].passage, c);
    }
  }

  lemma {:induction false} WithinIs(a: string, b: string)
    ensures Within(a, b) <==> !Never(b, a)
  {
    Bounds(b, a);
  }

  // ----- what a paragraph yields -----

  lemma {:induction false} WordsWithin(s: string)
    ensures Words(s) != [] ==> |JoinWords(Words(s))| <= |s|
    decreases |s|
  {
    hide Space, JoinWords;
    if s != "" {
      if Space(s[0]) {
        WordsWithin(s[1..]);
      } else {
        var rest := s[WordEnd(s)..];
        WordsWithin(rest);
        JoinFront(s[..WordEnd(s)], Words(rest));
        if rest != "" && Words(rest) != [] {
          assert Words(rest) == Words(rest[1..]);
          WordsWithin(rest[1..]);
        }
      }
    }
  }

  lemma {:induction false} JoinFront(w: string, ws: seq<string>)
    ensures |JoinWords([w] + ws)| == |w| + (if ws == [] then 0 else 1 + |JoinWords(ws)|)
    decreases |ws|
  {
    var all := [w] + ws;
    if ws != [] {
      var init := ws[..|ws| - 1];
      JoinFront(w, init);
      assert all[..|all| - 1] == [w] + init;
      if init == [] {
        assert all[..1] == [w];
      }
    }
  }

  lemma {:induction false} JoinShorter(ws: seq<string>, i: nat, j: nat)
    requires i <= j <= |ws|
    ensures |JoinWords(ws[i..j])| <= |JoinWords(ws)|
    decreases |ws|
  {
    if i > 0 {
      JoinShorter(ws[1..], i - 1, j - 1);
      assert ws[1..][i - 1..j - 1] == ws[i..j] && ws == [ws[0]] + ws[1..];
      JoinFront(ws[0], ws[1..]);
    } else if j < |ws| {
      var init := ws[..|ws| - 1];
      JoinShorter(init, 0, j);
      assert init[0..j] == ws[0..j];
    } else {
      assert ws[0..|ws|] == ws;
    }
  }

  /** No candidate is longer than its leaf, so leaves that are shorter than twelve characters have none. */
  lemma {:induction false} ShortLeaf(alnum: char -> bool, leaf: string, c: string)
    requires c in Candidates(alnum, leaf)
    ensures 12 <= |c| <= |leaf|
  {
    hide Candidates, Words, JoinWords, PassageChars;
    CandidatesExactly(alnum, leaf, c);
    var width: nat, i: nat :| (width == 3 || width == 4) && Joins(Words(leaf), width, i, c);
    WordsWithin(leaf);
    JoinShorter(Words(leaf), i, i + width);
  }

  /** Some candidate of some leaf suits. */
  ghost predicate Offers(d: Doc, alnum: char -> bool, picked: seq<Pick>, leaves: seq<string>, c: string) {
    exists leaf :: leaf in leaves && c in Candidates(alnum, leaf) && Suitable(d, picked, c)
  }

  lemma {:induction false} FirstSuitableExactly(d: Doc, picked: seq<Pick>, cands: seq<string>)
    ensures FirstSuitable(d, picked, cands).None? <==> forall c :: c in cands ==> !Suitable(d, picked, c)
  {
    hide Suitable;
    if cands != [] {
      FirstSuitableExactly(d, picked, cands[1..]);
      assert cands == [cands[0]] + cands[1..];
    }
  }

  /** The leaves of a paragraph yield a passage exactly when a candidate of one of them suits, however short the leaf. */
  lemma {:induction false} YieldsExactly(d: Doc, alnum: char -> bool, picked: seq<Pick>, leaves: seq<string>)
    ensures FromLeaves(d, alnum, picked, leaves).Some? <==> exists c :: Offers(d, alnum, picked, leaves, c)
  {
    hide Suitable, Candidates;
    if leaves != [] {
      var leaf, rest := leaves[0], leaves[1..];
      YieldsExactly(d, alnum, picked, rest);
      FirstSuitableExactly(d, picked, Candidates(alnum, leaf));
      forall c | c in Candidates(alnum, leaf) ensures |leaf| >= 12 {
        ShortLeaf(alnum, leaf, c);
      }
      assert leaves == [leaf] + rest;
      if c :| Offers(d, alnum, picked, rest, c) {
        var l :| l in rest && c in Candidates(alnum, l) && Suitable(d, picked, c);
        assert l in leaves;
        assert Offers(d, alnum, picked, leaves, c);
      }
      if c :| c in Candidates(alnum, leaf) && Suitable(d, picked, c) {
        assert leaf in leaves;
        assert Offers(d, alnum, picked, leaves, c);
      }
      if c :| Offers(d, alnum, picked, leaves, c) {
        var l :| l in leaves && c in Candidates(alnum, l) && Suitable(d, picked, c);
        if l in rest {
          assert Offers(d, alnum, picked, rest, c);
        }
      }
    }
  }

  /** A paragraph gives a pick exactly when fewer than three are there, it has 40 characters, and its leaves yield one. */
  lemma {:induction false} PicksExactly(d: Doc, alnum: char -> bool, n: nat)
    requires n < |d.paras|
    ensures var picked, more := Picks(d, alnum, n), Picks(d, alnum, n + 1);
            && more != picked <==>
               |picked| != 3 && |d.paras[n]| >= 40 && n < |d.leaves| && exists c :: Offers(d, alnum, picked, d.leaves[n], c)
  {
    hide FromLeaves, Offers;
    var picked := Picks(d, alnum, n);
    YieldsExactly(d, alnum, picked, LeavesAt(d, n));
    NoneOffered(d, alnum, picked);
  }

  lemma {:induction false} NoneOffered(d: Doc, alnum: char -> bool, picked: seq<Pick>)
    ensures forall c :: !Offers(d, alnum, picked, [], c)
  {}
}
