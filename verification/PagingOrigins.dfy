/** Where a reported occurrence comes from: from an entry the engine listed on a page that was read, as it was listed. */
module PagingOrigins {
  import opened Sequences
  import opened Engine
  import opened Paging

  /** The entry lists the occurrence; an entry without occurrences stands for itself. */
  ghost predicate Lists(m: Match, o: Occurrence) {
    if m.occurrences == [] then o == m.own else o in m.occurrences
  }

  /** The hit repeats an occurrence that the page lists, with the paragraph of its entry. */
  ghost predicate ListedOn(d: Data, h: Hit) {
    exists m, o :: m in d.matches && Lists(m, o) && h.handle == o.handle && h.shape == o.shape && h.editable == o.editable
                   && h.code == o.code && h.paragraph == m.paragraph
  }

  lemma {:induction false} EntryLists(m: Match, h: Hit)
    requires h in EntryHits(m)
    ensures exists o :: Lists(m, o) && h.handle == o.handle && h.shape == o.shape && h.editable == o.editable && h.code == o.code
    ensures h.paragraph == m.paragraph
  {
    if m.occurrences == [] {
      assert Lists(m, m.own);
    } else {
      var i :| 0 <= i < |m.occurrences| && EntryHits(m)[i] == h;
      assert Lists(m, m.occurrences[i]);
    }
  }

  lemma {:induction false} PageLists(d: Data, ms: seq<Match>, h: Hit)
    requires h in PageHits(ms) && forall m :: m in ms ==> m in d.matches
    ensures ListedOn(d, h)
  {
    hide EntryHits;
    if h in EntryHits(ms[0]) {
      EntryLists(ms[0], h);
      var o :| Lists(ms[0], o) && h.handle == o.handle && h.shape == o.shape && h.editable == o.editable && h.code == o.code;
      assert ms[0] in d.matches;
    } else {
      PageLists(d, ms[1..], h);
    }
  }

  lemma {:induction false} EntryHas(m: Match, o: Occurrence)
    requires Lists(m, o)
    ensures exists h :: h in EntryHits(m) && h.handle == o.handle
  {
    if m.occurrences == [] {
      assert EntryHits(m)[0].handle == o.handle;
    } else {
      var i :| 0 <= i < |m.occurrences| && m.occurrences[i] == o;
      assert EntryHits(m)[i].handle == o.handle;
    }
  }

  /** Every occurrence a page lists is among its hits. */
  lemma {:induction false} PageHas(ms: seq<Match>, m: Match, o: Occurrence)
    requires m in ms && Lists(m, o)
    ensures exists h :: h in PageHits(ms) && h.handle == o.handle
  {
    hide EntryHits;
    if m == ms[0] {
      EntryHas(m, o);
      var h :| h in EntryHits(m) && h.handle == o.handle;
      assert h in PageHits(ms);
    } else {
      PageHas(ms[1..], m, o);
      var h :| h in PageHits(ms[1..]) && h.handle == o.handle;
      assert h in PageHits(ms);
    }
  }

  /** The first hit of a page is the first occurrence its first entry lists. */
  lemma {:induction false} FirstOfPage(ms: seq<Match>)
    requires ms != []
    ensures PageHits(ms) != []
    ensures var h, o := PageHits(ms)[0], if ms[0].occurrences == [] then ms[0].own else ms[0].occurrences[0];
            h.handle == o.handle && h.shape == o.shape && h.editable == o.editable && h.code == o.code
            && h.paragraph == ms[0].paragraph
  {
    assert EntryHits(ms[0]) != [] && PageHits(ms)[0] == EntryHits(ms[0])[0];
  }

  // ----- harvesting -----

  /** What is kept was kept before or is the first of the hits with its handle. */
  ghost predicate FirstOfHandle(hits: seq<Hit>, h: Hit) {
    exists i :: 0 <= i < |hits| && hits[i] == h && (h.handle != "" ==> forall j :: 0 <= j < i ==> hits[j].handle != h.handle)
  }

  lemma {:induction false} HarvestKeepsFirst(hits: seq<Hit>, h: Hit)
    requires h in Harvest([], hits)
    ensures FirstOfHandle(hits, h)
    decreases |hits|
  {
    hide Harvest, Known;
    if hits == [] {
      NothingHarvested([]);
    } else {
      var n := |hits| - 1;
      var before, last := hits[..n], hits[n];
      assert hits == before + [last];
      HarvestConcat([], before, [last]);
      HarvestOne(Harvest([], before), last);
      HarvestKeepsEach([], before);
      if h in Harvest([], before) {
        HarvestKeepsFirst(before, h);
        var i :| 0 <= i < |before| && before[i] == h && (h.handle != "" ==> forall j :: 0 <= j < i ==> before[j].handle != h.handle);
        assert hits[i] == h;
      } else {
        assert hits[n] == h && !Known(last, Harvest([], before));
        if last.handle != "" {
          UnknownIsNew(last, before);
        }
      }
    }
  }

  lemma {:induction false} NothingHarvested(kept: seq<Hit>)
    ensures Harvest(kept, []) == kept
  {}

  lemma {:induction false} HarvestOne(kept: seq<Hit>, h: Hit)
    ensures Harvest(kept, [h]) == if Known(h, kept) then kept else kept + [h]
  {
    assert [h][1..] == [];
  }

  lemma {:induction false} UnknownIsNew(h: Hit, before: seq<Hit>)
    requires !Known(h, Harvest([], before)) && Handles(Harvest([], before)) == Handles([]) + Handles(before) && h.handle != ""
    ensures forall j :: 0 <= j < |before| ==> before[j].handle != h.handle
  {
    forall j | 0 <= j < |before| ensures before[j].handle != h.handle {
      assert before[j].handle in Handles(Harvest([], before));
    }
  }

  // ----- all pages that are read -----

  /** What the pages list, one after the other. */
  function AllHits(ds: seq<Data>): seq<Hit> {
    if ds == [] then [] else AllHits(ds[..|ds| - 1]) + PageHits(ds[|ds| - 1].matches)
  }

  /** The first page, and pages the engine gave in reply to the requests. */
  ghost predicate ReadPages(server: Server, query: string, first: Data, ds: seq<Data>) {
    && ds != [] && ds[0] == first
    && forall k :: 1 <= k < |ds| ==> Requested(server, query, first, ds[k])
  }

  ghost predicate Requested(server: Server, query: string, first: Data, d: Data) {
    exists r :: r in Requests(server, query, first, 1, Harvest([], PageHits(first.matches))) && server(r.0, r.1) == Page(d)
  }

  lemma {:induction false} ReadOn(server: Server, query: string, page: Data, pages: nat, ds: seq<Data>) returns (all: seq<Data>)
    requires ds != []
    ensures |ds| <= |all| && all[..|ds|] == ds
    ensures Collect(server, query, page, pages, Harvest([], AllHits(ds))).hits == Harvest([], AllHits(all))
    ensures forall k :: |ds| <= k < |all| ==>
              exists r :: r in Requests(server, query, page, pages, Harvest([], AllHits(ds))) && server(r.0, r.1) == Page(all[k])
    decreases MAX_PAGES - pages
  {
    hide PageHits, Harvest, HarvestRaises, Complete, NextOffset, TotalChanged;
    all := ds;
    if !Complete(page) && pages < MAX_PAGES {
      var own := (pages, NextOffset(page, query));
      var reply := server(own.0, own.1);
      var hits := Harvest([], AllHits(ds));
      if reply.Page? && !TotalChanged(page, reply.data) && !HarvestRaises(hits, PageHits(reply.data.matches)) {
        var next := ds + [reply.data];
        assert next[..|next| - 1] == ds;
        HarvestConcat([], AllHits(ds), PageHits(reply.data.matches));
        all := ReadOn(server, query, reply.data, pages + 1, next);
        assert all[..|ds|] == all[..|next|][..|ds|] == ds && all[|ds|] == all[..|next|][|ds|] == reply.data;
        assert own in Requests(server, query, page, pages, hits);
      }
    }
  }

  /** What paging keeps is, of all the pages it read, the first occurrence with each handle, as the engine listed it. */
  lemma {:induction false} KeptAsListed(server: Server, query: string, first: Data) returns (ds: seq<Data>)
    requires !HarvestRaises([], PageHits(first.matches))
    ensures ReadPages(server, query, first, ds)
    ensures var hits := Collecting(server, query, first).hits;
            && hits == Harvest([], AllHits(ds))
            && forall h :: h in hits ==> FirstOfHandle(AllHits(ds), h) && exists d :: d in ds && ListedOn(d, h)
  {
    hide PageHits, Harvest, HarvestRaises, ListedOn, Requests, Collect;
    OnePage(first);
    ds := ReadOn(server, query, first, 1, [first]);
    assert ds[..1][0] == first;
    forall h | h in Harvest([], AllHits(ds)) ensures FirstOfHandle(AllHits(ds), h) && exists d :: d in ds && ListedOn(d, h) {
      HarvestKeepsFirst(AllHits(ds), h);
      AllListedOn(ds, h);
    }
  }

  lemma {:induction false} OnePage(first: Data)
    ensures AllHits([first]) == PageHits(first.matches)
  {
    assert [first][..0] == [] && AllHits([]) == [];
  }

  lemma {:induction false} AllListedOn(ds: seq<Data>, h: Hit)
    requires h in AllHits(ds)
    ensures exists d :: d in ds && ListedOn(d, h)
    decreases |ds|
  {
    hide ListedOn, PageHits;
    var last := ds[|ds| - 1];
    if h in PageHits(last.matches) {
      PageLists(last, last.matches, h);
      assert last in ds;
    } else {
      AllListedOn(ds[..|ds| - 1], h);
      var d :| d in ds[..|ds| - 1] && ListedOn(d, h);
      assert d in ds;
    }
  }

  /** And when one occurrence is reported, its handle, verdict, code and paragraph are those the engine listed. */
  lemma {:induction false} ReportedAsListed(server: Server, query: string, first: Data) returns (d: Data, m: Match, o: Occurrence)
    requires !HarvestRaises([], PageHits(first.matches))
    requires FoundOf(Collecting(server, query, first).hits).occurrences == 1
    ensures d == first || Requested(server, query, first, d)
    ensures m in d.matches && Lists(m, o)
    ensures var found := FoundOf(Collecting(server, query, first).hits);
            found.handle == o.handle && found.editable == o.editable && found.code == o.code && found.paragraph == m.paragraph
  {
    hide PageHits, Harvest, HarvestRaises, Collecting, FirstOfHandle, Requested;
    var ds := KeptAsListed(server, query, first);
    var hits := Collecting(server, query, first).hits;
    var h := hits[0];
    assert h in hits;
    d :| d in ds && ListedOn(d, h);
    var k :| 0 <= k < |ds| && ds[k] == d;
    m, o :| m in d.matches && Lists(m, o) && h.handle == o.handle && h.shape == o.shape && h.editable == o.editable
            && h.code == o.code && h.paragraph == m.paragraph;
  }

  /** With any other number nothing is reported of an occurrence. */
  lemma {:induction false} OtherwiseNothing(hits: seq<Hit>)
    ensures FoundOf(hits).occurrences == |hits|
    ensures |hits| != 1 ==> !FoundOf(hits).editable && FoundOf(hits).handle == ""
  {}

  // ----- when reading a page raises -----

  /** An entry that is no object at all, or whose verdict is none, the latter only when its handle has not come before. */
  ghost predicate Unreads(hits: seq<Hit>, i: nat) {
    i < |hits|
    && (hits[i].shape.NoObject?
        || (hits[i].shape.NoVerdict? && (hits[i].handle == "" || forall j :: 0 <= j < i ==> hits[j].handle != hits[i].handle)))
  }

  /** Harvesting raises exactly when there is such an entry. */
  lemma {:induction false} RaisesExactly(hits: seq<Hit>)
    ensures HarvestRaises([], hits) <==> exists i: nat :: Unreads(hits, i)
    decreases |hits|
  {
    hide Harvest, Known, HarvestRaises;
    if hits == [] {
      NothingRaises([]);
    } else {
      var n := |hits| - 1;
      var before, last := hits[..n], hits[n];
      var kept := Harvest([], before);
      assert hits == before + [last];
      HarvestConcat([], before, [last]);
      RaisesExactly(before);
      RaisesOne(kept, last);
      HarvestKeepsEach([], before);
      KnownIsOld(last, kept, before);
      assert forall i: nat :: i < n ==> (Unreads(hits, i) <==> Unreads(before, i));
      assert Unreads(hits, n) <==> Unreadable(last, kept);
    }
  }

  lemma {:induction false} NothingRaises(kept: seq<Hit>)
    ensures !HarvestRaises(kept, [])
  {}

  lemma {:induction false} RaisesOne(kept: seq<Hit>, h: Hit)
    ensures HarvestRaises(kept, [h]) <==> Unreadable(h, kept)
  {
    assert [h][1..] == [];
    NothingRaises(if Known(h, kept) then kept else kept + [h]);
  }

  lemma {:induction false} KnownIsOld(h: Hit, kept: seq<Hit>, before: seq<Hit>)
    requires Handles(kept) == Handles([]) + Handles(before)
    ensures Known(h, kept) <==> h.handle != "" && exists j :: 0 <= j < |before| && before[j].handle == h.handle
  {
    if Known(h, kept) {
      assert h.handle in Handles(kept);
    }
    if h.handle != "" && exists j :: 0 <= j < |before| && before[j].handle == h.handle {
      assert h.handle in Handles(before);
    }
  }

  // ----- which pages are asked for -----

  /** The reply says that it is the last, or says nothing and has no cursor. */
  predicate Last(d: Data) {
    d.counts.complete == Some(true) || (d.counts.complete == None && d.next == None)
  }

  /** The cursor when it fits the query, and otherwise the offset past what the reply returned. */
  function After(d: Data, query: string): int {
    match d.next
    case Some(NextCall(None, Some(at))) => at
    case Some(NextCall(Some(q), Some(at))) => if q == query then at else d.counts.offset + d.counts.returned
    case _ => d.counts.offset + d.counts.returned
  }

  /** The first request behind a first page, and what a page with another total does: it ends paging, unread. */
  lemma {:induction false} AsksExactly(server: Server, query: string, first: Data)
    requires !HarvestRaises([], PageHits(first.matches))
    ensures var c, kept := Collecting(server, query, first), Harvest([], PageHits(first.matches));
            && (Last(first) ==> c == Collected(kept, 1, Over))
            && (!Last(first) ==>
                  match server(1, After(first, query))
                  case Lost => c == Collected(kept, 2, TransportLost)
                  case Raising => c == Collected(kept, 1, Raised)
                  case Page(next) =>
                    && (first.counts.total.Some? && next.counts.total != first.counts.total ==> c == Collected(kept, 2, Over))
                    && ((first.counts.total.None? || next.counts.total == first.counts.total)
                        && !HarvestRaises([], PageHits(first.matches) + PageHits(next.matches)) && Last(next) ==>
                          c == Collected(Harvest([], PageHits(first.matches) + PageHits(next.matches)), 2, Over)))
  {
    hide PageHits, Harvest, HarvestRaises;
    var kept := Harvest([], PageHits(first.matches));
    assert Complete(first) == Last(first) && NextOffset(first, query) == After(first, query);
    if !Last(first) {
      var reply := server(1, After(first, query));
      if reply.Page? {
        HarvestConcat([], PageHits(first.matches), PageHits(reply.data.matches));
      }
    }
  }

  /** At most ten pages are read. */
  lemma {:induction false} TenPages(server: Server, query: string, page: Data, pages: nat, hits: seq<Hit>)
    requires pages <= 10
    ensures Collect(server, query, page, pages, hits).pages <= 10
    decreases 10 - pages
  {
    hide PageHits, Harvest, HarvestRaises, Complete, NextOffset, TotalChanged;
    if !Complete(page) && pages < MAX_PAGES {
      var reply := server(pages, NextOffset(page, query));
      if reply.Page? && !TotalChanged(page, reply.data) && !HarvestRaises(hits, PageHits(reply.data.matches)) {
        TenPages(server, query, reply.data, pages + 1, Harvest(hits, PageHits(reply.data.matches)));
      }
    }
  }

  // ----- the second loop -----

  /** It counts all that a page lists, and keeps the very first occurrence of all pages. */
  lemma {:induction false} TalliesExactly(server: Server, query: string, first: Data)
    requires server(0, 0) == Page(first) && first.counts.complete == Some(true) && !TallyRaises(PageHits(first.matches), NO_TALLY)
    ensures var t := ExactOne(server, query, 0, NO_TALLY);
            && t.ending.Over? && t.occurrences == |PageHits(first.matches)|
            && (first.matches != [] ==>
                  t.first.Some?
                  && var m := first.matches[0];
                     var o := if m.occurrences == [] then m.own else m.occurrences[0];
                     t.first.value == Hit(o.handle, o.shape, o.editable, o.code, m.paragraph))
  {
    hide PageHits, TallyRaises;
    if first.matches != [] {
      FirstOfPage(first.matches);
    }
  }

  /** It raises exactly on an entry that is no object, or when the very first one has a verdict that is none. */
  lemma {:induction false} TallyRaisesExactly(server: Server, query: string, first: Data)
    requires server(0, 0) == Page(first) && first.counts.complete == Some(true)
    ensures ExactOne(server, query, 0, NO_TALLY).ending.Raised? <==>
            || (exists h :: h in PageHits(first.matches) && h.shape.NoObject?)
            || (first.matches != []
                && var m := first.matches[0]; (if m.occurrences == [] then m.own else m.occurrences[0]).shape.NoVerdict?)
  {
    hide PageHits;
    var hits := PageHits(first.matches);
    if first.matches != [] {
      FirstOfPage(first.matches);
    } else {
      NoHits();
    }
    if h :| h in hits && h.shape.NoObject? {
      var i :| 0 <= i < |hits| && hits[i] == h;
    }
    if i :| 0 <= i < |hits| && hits[i].shape.NoObject? {
      assert hits[i] in hits;
    }
  }

  lemma {:induction false} NoHits()
    ensures PageHits([]) == []
  {}
}
