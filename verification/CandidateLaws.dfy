/** Which candidates are tried, told by names, and why a document is refused. */
module CandidateLaws {
  import opened Sequences
  import opened Scanner
  import opened Markup
  import opened Locator
  import opened LocatorResults
  import opened TextRanges
  import opened TextPairing
  import opened Queries
  import opened Target
  import opened TargetFacts
  import opened Structure
  import opened EligibleTexts
  import opened TreeNames

  /** The candidate is a query of an eligible text of a paragraph that no element locks by its name. */
  ghost predicate Tried(lib: Library, paras: seq<Para>, c: Cand) {
    && c.ordinal < |paras|
    && var p := paras[c.ordinal];
       && !HasOneOf(p.kids, OPAQUE + REVISION + FIELD + CONTROL)
       && exists place :: place in PlacesIn(p.kids, p.first, [], p.kids) && Eligible(place)
                          && place.ref.index == c.index && c.query in CandidateQueries(lib.text(place.ref.kids))
  }

  lemma {:induction false} RefCandsHave(lib: Library, ordinal: nat, refs: seq<TextRef>, r: TextRef, q: string)
    requires r in refs && q in CandidateQueries(lib.text(r.kids))
    ensures Cand(ordinal, r.index, q) in RefCands(lib, ordinal, refs)
  {
    hide CandidateQueries;
    if r == refs[0] {
      var qs := CandidateQueries(lib.text(r.kids));
      var k :| 0 <= k < |qs| && qs[k] == q;
      assert QueryCands(ordinal, r.index, qs)[k] == Cand(ordinal, r.index, q);
    } else {
      RefCandsHave(lib, ordinal, refs[1..], r, q);
    }
  }

  lemma {:induction false} AllCandsHave(lib: Library, ordinal: nat, paras: seq<Para>, o: nat, r: TextRef, q: string)
    requires ordinal <= o < ordinal + |paras|
    requires var p := paras[o - ordinal];
             && !ParagraphFlags(p.kids).Any() && r in RunTexts(p.kids, p.first, true)
             && q in CandidateQueries(lib.text(r.kids))
    ensures Cand(o, r.index, q) in AllCands(lib, ordinal, paras)
    decreases |paras|
  {
    hide CandidateQueries, RunTexts, ParagraphFlags, RefCands;
    if o == ordinal {
      RefCandsHave(lib, ordinal, RunTexts(paras[0].kids, paras[0].first, true), r, q);
    } else {
      AllCandsHave(lib, ordinal + 1, paras[1..], o, r, q);
    }
  }

  /** The candidates tried are exactly these. */
  lemma {:induction false} TriedExactly(lib: Library, root: Forest, c: Cand)
    ensures c in AllCands(lib, 0, Paragraphs(root)) <==> Tried(lib, Paragraphs(root), c)
  {
    hide CandidateQueries, RunTexts, ParagraphFlags, AllCands, Paragraphs, HasOneOf, PlacesIn, Eligible;
    var paras := Paragraphs(root);
    if c in AllCands(lib, 0, paras) {
      var r := AllCandsIn(lib, 0, paras, c);
      var p := paras[c.ordinal];
      FlagsByName(p.kids);
      TriedAreEligible(p.kids, p.first, r);
    }
    if Tried(lib, paras, c) {
      var p := paras[c.ordinal];
      FlagsByName(p.kids);
      var place :| place in PlacesIn(p.kids, p.first, [], p.kids) && Eligible(place)
                   && place.ref.index == c.index && c.query in CandidateQueries(lib.text(place.ref.kids));
      TriedAreEligible(p.kids, p.first, place.ref);
      AllCandsHave(lib, 0, paras, c.ordinal, place.ref, c.query);
    }
  }

  /** How many paragraphs the tree has right in its first `body`. */
  function ParagraphsIn(root: Forest): nat {
    var bodies := ContentsOf(Elements(root), "body");
    if bodies == [] then 0 else |ContentsOf(TopElements(bodies[0]), "p")|
  }

  /**
   Why a document is refused before its candidates are tried: it does not parse; its paragraphs cannot be located; its
   ranges cannot be paired; or the scan and the tree count different numbers of paragraphs.
   */
  lemma {:induction false} RefusedExactly(lib: Library, doc: seq<byte>, others: seq<string>, s: Selection)
    requires IsSelection(lib, doc, others, s)
    ensures s == Refused(Unparseable) <==> lib.parse(doc).None?
    ensures s == Refused(LocatorFailed) <==> lib.parse(doc).Some? && Locate(Scan(doc, 0)).None?
    ensures s == Refused(RangeMismatch) <==>
            && lib.parse(doc).Some? && Locate(Scan(doc, 0)).Some?
            && RangesOf(doc, lib.calls(doc).0, lib.calls(doc).1, |ContentsOf(Elements(lib.parse(doc).value), "t")|).None?
    ensures s == Refused(DirectMismatch) <==>
            && lib.parse(doc).Some? && Locate(Scan(doc, 0)).Some?
            && RangesOf(doc, lib.calls(doc).0, lib.calls(doc).1, |ContentsOf(Elements(lib.parse(doc).value), "t")|).Some?
            && |Directs(Locate(Scan(doc, 0)).value)| != ParagraphsIn(lib.parse(doc).value)
  {
    hide Scan, Locate, RangesOf, Paragraphs, AllCands, FirstSafe, Directs, OwnKids, ContentsOf, Elements, TopElements, ViewOf,
         IsTarget, KidsOf;
    if lib.parse(doc).Some? {
      var root := lib.parse(doc).value;
      TextsByName(root);
      ParagraphsByName(root);
      assert |Paragraphs(root)| == ParagraphsIn(root) by { KidsCount(Paragraphs(root)); }
    }
  }

  lemma {:induction false} KidsCount(paras: seq<Para>)
    ensures |KidsOf(paras)| == |paras|
  {}

  // ----- when the locator and the pairing refuse -----

  /** The locator refuses exactly when the scan has not as many opening as closing tags of paragraphs. */
  lemma {:induction false} LocatesExactly(tags: seq<Tag>)
    ensures Locate(tags).Some? <==> ParaOpens(tags) == |ParaCloses(tags)|
  {
    hide Run, Assign, ParaOpens, ParaCloses;
    OpenEnds(START, tags);
    assert Ends(START.work.located) == 0;
    if ParaOpens(tags) == |ParaCloses(tags)| {
      AssignsEnough(Run(START, tags).work.located, ParaCloses(tags));
    }
  }

  /** Any closing tag, of whatever name, takes a content control off the stack. */
  lemma {:induction false} AnyTagClosesControl(st: State, n: nat, t: Tag)
    requires t.closing
    ensures OnTag(st.(stack := st.stack + [Control(n)]), t).stack == st.stack
  {
    var s := st.stack + [Control(n)];
    assert s[..|s| - 1] == st.stack;
  }

  /** Entries that wait for their end. */
  function Ends(es: seq<Entry>): nat {
    if es == [] then 0 else (if es[0].end.Some? then 0 else 1) + Ends(es[1..])
  }

  lemma {:induction false} EndsMore(es: seq<Entry>, e: Entry)
    ensures Ends(es + [e]) == Ends(es) + if e.end.Some? then 0 else 1
    decreases |es|
  {
    if es == [] {
      assert es + [e] == [e] && [e][1..] == [];
    } else {
      assert (es + [e])[1..] == es[1..] + [e];
      EndsMore(es[1..], e);
    }
  }

  lemma {:induction false} OneTag(st: State, t: Tag)
    ensures Ends(OnTag(st, t).work.located) <= Ends(st.work.located) +
            if t.name == PARA && !t.closing && !t.selfClosing then 1 else 0
  {
    hide EnvOf, DropLast;
    assert PARA != BODY && PARA != TBL && PARA != SDT;
    if t.name == PARA && !t.closing && st.bodyOpen && !st.bodyClosed {
      var located := OnTag(st, t).work.located;
      EndsMore(st.work.located, located[|located| - 1]);
    }
  }

  lemma {:induction false} OpenEnds(st: State, tags: seq<Tag>)
    ensures Ends(Run(st, tags).work.located) <= Ends(st.work.located) + ParaOpens(tags)
    decreases |tags|
  {
    hide OnTag, Ends;
    if tags != [] {
      OneTag(st, tags[0]);
      OpenEnds(OnTag(st, tags[0]), tags[1..]);
    }
  }

  lemma {:induction false} AssignsEnough(es: seq<Entry>, closes: seq<nat>)
    requires Ends(es) <= |closes|
    ensures Assign(es, closes).Some?
    decreases |es|
  {
    if es != [] {
      AssignsEnough(es[1..], if es[0].end.Some? then closes else closes[1..]);
    }
  }

  /** Ranges are refused exactly on an error, a start without its `>`, a wrong number of them, or an element left open. */
  lemma {:induction false} RangesExactly(doc: seq<byte>, calls: seq<Callback>, parsed: bool, want: nat)
    ensures var r := Handle(doc, FRESH, calls);
            && (RangesOf(doc, calls, parsed, want).Some? <==> parsed && !r.failed && |r.ranges| == want && r.stack == [])
            && (r.failed <==> exists k :: 0 <= k < |calls| && calls[k].StartCall? && calls[k].wt
                                          && forall j :: calls[k].at <= j < |doc| ==> doc[j] != 62)
  {
    hide Handle;
    FailsExactly(doc, FRESH, calls);
  }

  lemma {:induction false} FailsExactly(doc: seq<byte>, r: Record, calls: seq<Callback>)
    ensures Handle(doc, r, calls).failed <==>
            r.failed || exists k :: 0 <= k < |calls| && calls[k].StartCall? && calls[k].wt
                                    && forall j :: calls[k].at <= j < |doc| ==> doc[j] != 62
    decreases |calls|
  {
    if calls != [] {
      FailsOne(doc, r, calls[0]);
      FailsExactly(doc, OnCall(doc, r, calls[0]), calls[1..]);
      assert calls == [calls[0]] + calls[1..];
    }
  }

  lemma {:induction false} FailsOne(doc: seq<byte>, r: Record, c: Callback)
    ensures OnCall(doc, r, c).failed <==>
            r.failed || (c.StartCall? && c.wt && forall j :: c.at <= j < |doc| ==> doc[j] != 62)
  {
    var close := Find(doc, [GT], c.at);
    if close >= 0 {
      ByteAt(doc, [GT], close, 0);
    }
    forall j | c.at <= j < |doc| && doc[j] == 62 ensures At(doc, [GT], j) {
      assert doc[j..j + 1] == [doc[j]];
    }
  }
}
