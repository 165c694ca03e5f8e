/** Where a text is cut into lines, and a typed view read from its very characters. */
module TypedViewLaws {
  import opened Sequences
  import opened TypedView

  // ----- lines -----

  /** The codes at which Python's `str.splitlines` cuts. */
  predicate Newline(code: int) {
    10 <= code <= 13 || 28 <= code <= 30 || code == 133 || code == 8232 || code == 8233
  }

  predicate Unbroken(line: string) {
    forall i :: 0 <= i < |line| ==> !Newline(line[i] as int)
  }

  lemma {:induction false} BreakByCode(c: char)
    ensures Break(c) <==> Newline(c as int)
  {}

  lemma {:induction false} EndOfLine(line: string, rest: string)
    requires Unbroken(line) && (rest == "" || Newline(rest[0] as int))
    ensures LineEnd(line + rest) == |line|
    decreases |line|
  {
    hide Break, Newline;
    if line == "" {
      assert line + rest == rest;
      if rest != "" {
        BreakByCode(rest[0]);
      }
    } else {
      BreakByCode(line[0]);
      assert (line + rest)[1..] == line[1..] + rest;
      EndOfLine(line[1..], rest);
    }
  }

  /**
   A text is cut at the first line break in it, a carriage return and a line feed counting as one; what follows is cut
   in the same way, and an end without a line break is a line of its own unless it is empty.
   */
  lemma {:induction false} SplitExactly(line: string, c: char, rest: string)
    requires Unbroken(line) && Newline(c as int)
    ensures SplitLines("") == [] && (line != "" ==> SplitLines(line) == [line])
    ensures SplitLines(line + [c] + rest) ==
            [line] + SplitLines(if c as int == 13 && rest != "" && rest[0] as int == 10 then rest[1..] else rest)
  {
    hide LineEnd;
    EndOfLine(line, "");
    assert line + "" == line;
    var s := line + [c] + rest;
    EndOfLine(line, [c] + rest);
    assert s == line + ([c] + rest);
    assert s[|line|] == c && s[..|line|] == line && s[|line| + 1..] == rest;
    if rest != "" {
      assert s[|line| + 1] == rest[0] && s[|line| + 2..] == rest[1..];
    }
  }

  // ----- a view -----

  lemma {:induction false} StripIs(s: string)
    requires s == "" || (!P.Blank(s[0]) && !P.Blank(s[|s| - 1]))
    ensures Strip(s) == s && Strip("  " + s) == s
  {
    StripTrimmed(s);
    StripAround("  ", s, "");
    assert "  " + s + "" == "  " + s;
  }

  /** The id stands between the quotes of a marker. */
  lemma {:induction false} IdOfMarker(c: char)
    requires c == 'a' || c == 'b'
    ensures IdOf("<!--@p id=\"" + [c] + "\"-->") == [c]
  {
    hide Find, Before;
    var s := "<!--@p id=\"" + [c] + "\"-->";
    assert |MARK| == 11 && s[..11] == MARK && s[11..] == [c] + "\"" + "-->";
    forall j ensures !At([c], QUOTE, j) && !At([c] + QUOTE, ID, j) {
      NotAt([c], QUOTE, j, 0);
      NotAt([c] + QUOTE, ID, j, 3);
    }
    NotFound([c], QUOTE);
    NotFound([c] + QUOTE, ID);
    IdRead([c], "-->");
  }

  lemma {:induction false} NotFound(s: string, pat: string)
    requires forall j :: !At(s, pat, j)
    ensures Find(s, pat, 0) < 0
  {}

  const A_MARK: string := "<!--@p id=\"" + ['a'] + "\"-->"
  const B_MARK: string := "<!--@p id=\"" + ['b'] + "\"-->"

  const VIEW: seq<string> :=
    ["x", A_MARK, "one", "two", "  <!--@part 1-->", "x", B_MARK, "three", "<!--@typed-->", "x"]

  lemma {:induction false} Marks()
    ensures forall m :: m == A_MARK || m == B_MARK ==> Strip(m) == m && Starts(m, MARK)
    ensures Strip("  <!--@part 1-->") == "<!--@part 1-->" && Starts("<!--@part 1-->", PART) && !Starts("<!--@part 1-->", MARK)
    ensures Strip("<!--@typed-->") == "<!--@typed-->" && Starts("<!--@typed-->", TYPED) && !Starts("<!--@typed-->", MARK)
  {
    StripIs(A_MARK);
    StripIs(B_MARK);
    StripIs("<!--@part 1-->");
    StripIs("<!--@typed-->");
    assert "  <!--@part 1-->" == "  " + "<!--@part 1-->";
    assert MARK[6] == ' ' && "<!--@typed-->"[6] == 'y' && "<!--@part 1-->"[6] == 'a';
  }

  lemma {:induction false} Words()
    ensures forall w :: w in ["x", "one", "two", "three"] ==> Strip(w) == w && !Starts(w, MARK) && !Starts(w, PART) && !Starts(w, TYPED)
  {
    StripIs("x");
    StripIs("one");
    StripIs("two");
    StripIs("three");
  }

  lemma {:induction false} OneStep(r: Reader, lines: seq<string>, k: nat)
    requires k < |lines|
    ensures Run(r, START, lines[..k + 1]) == Step(r, Run(r, START, lines[..k]), lines[k])
  {
    assert lines[..k + 1][..k] == lines[..k];
  }

  /**
   A view read from its characters: what stands before a paragraph's marker, and after the marker of a part or of the
   typed section, belongs to no paragraph; the lines of a paragraph are joined by line feeds.
   */
  lemma {:induction false} ViewRead(r: Reader)
    ensures Read(r, VIEW) == map["a" := "one\ntwo", "b" := "three"]
  {
    hide Strip, IdOf, J.JoinLines, A_MARK, B_MARK, Starts, Run;
    Marks();
    Words();
    MarkIds();
    Bodies2();
    assert VIEW[..0] == [] && VIEW[..10] == VIEW;
    RunNothing(r);
    OneStep(r, VIEW, 0);
    OneStep(r, VIEW, 1);
    OneStep(r, VIEW, 2);
    OneStep(r, VIEW, 3);
    OneStep(r, VIEW, 4);
    OneStep(r, VIEW, 5);
    OneStep(r, VIEW, 6);
    OneStep(r, VIEW, 7);
    OneStep(r, VIEW, 8);
    OneStep(r, VIEW, 9);
    var w := ["x", "one", "two", "three"];
    assert VIEW[0] == w[0] && VIEW[2] == w[1] && VIEW[3] == w[2] && VIEW[5] == w[0] && VIEW[7] == w[3] && VIEW[9] == w[0];
    assert Run(r, START, VIEW[..2]) == State(map[], Some("a"), []);
    assert Run(r, START, VIEW[..4]) == State(map[], Some("a"), ["one", "two"]);
    assert Run(r, START, VIEW[..6]) == State(map["a" := "one\ntwo"], None, []);
    assert Run(r, START, VIEW[..8]) == State(map["a" := "one\ntwo"], Some("b"), ["three"]);
  }

  lemma {:induction false} RunNothing(r: Reader)
    ensures Run(r, START, []) == START
  {}

  lemma {:induction false} MarkIds()
    ensures Starts(A_MARK, MARK) && IdOf(A_MARK) == "a" && Starts(B_MARK, MARK) && IdOf(B_MARK) == "b"
  {
    IdOfMarker('a');
    IdOfMarker('b');
  }

  lemma {:induction false} Bodies2()
    ensures Strip(J.JoinLines(["one", "two"])) == "one\ntwo" && Strip(J.JoinLines(["three"])) == "three"
  {
    var lines := ["one", "two"];
    assert lines[..1] == ["one"];
    assert J.JoinLines(["one"]) == "one";
    assert J.JoinLines(lines) == "one" + ['\n'] + "two" == "one\ntwo";
    StripIs("one\ntwo");
    StripIs("three");
  }
}
