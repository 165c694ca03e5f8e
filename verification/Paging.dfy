/** Paging a find to its end: `_collect_single`, which harvests handles without repeats, and `_find_exact_one`. */
module Paging {
  import opened Sequences
  import opened Engine

  const PAGE_LIMIT: nat := 200
  const MAX_PAGES: nat := 10

  /** A harvested occurrence together with the paragraph of its entry. */
  datatype Hit = Hit(handle: string, shape: Shape, editable: bool, code: string, paragraph: string)

  function HitOf(o: Occurrence, paragraph: string): Hit {
    Hit(o.handle, o.shape, o.editable, o.code, paragraph)
  }

  function EntryHits(m: Match): seq<Hit> {
    if m.occurrences == [] then [HitOf(m.own, m.paragraph)]
    else seq(|m.occurrences|, i requires 0 <= i < |m.occurrences| => HitOf(m.occurrences[i], m.paragraph))
  }

  /** Every occurrence a page lists. */
  function PageHits(ms: seq<Match>): seq<Hit> {
    if ms == [] then [] else EntryHits(ms[0]) + PageHits(ms[1..])
  }

  predicate Known(h: Hit, hits: seq<Hit>) {
    h.handle != "" && exists i :: 0 <= i < |hits| && hits[i].handle == h.handle
  }

  /** The hits kept so far followed by the new ones; a non-empty handle is kept once. */
  function Harvest(kept: seq<Hit>, hits: seq<Hit>): seq<Hit>
    decreases |hits|
  {
    if hits == [] then kept else Harvest(if Known(hits[0], kept) then kept else kept + [hits[0]], hits[1..])
  }

  /** Reading the hit raises: it is no object, or it is new and its verdict is no object. */
  predicate Unreadable(h: Hit, kept: seq<Hit>) {
    h.shape.NoObject? || (h.shape.NoVerdict? && !Known(h, kept))
  }

  /** Some hit raises when its turn comes. */
  predicate HarvestRaises(kept: seq<Hit>, hits: seq<Hit>)
    decreases |hits|
  {
    hits != []
    && (Unreadable(hits[0], kept) || HarvestRaises(if Known(hits[0], kept) then kept else kept + [hits[0]], hits[1..]))
  }

  /** `_harvest`; none is the exception on a malformed entry. */
  method HarvestPage(kept: seq<Hit>, ms: seq<Match>) returns (hits: Option<seq<Hit>>)
    ensures hits == if HarvestRaises(kept, PageHits(ms)) then None else Some(Harvest(kept, PageHits(ms)))
  {
    hide Known, Unreadable;
    var so := kept;
    assert ms[0..] == ms;
    for i := 0 to |ms|
      invariant Harvest(so, PageHits(ms[i..])) == Harvest(kept, PageHits(ms))
      invariant HarvestRaises(so, PageHits(ms[i..])) == HarvestRaises(kept, PageHits(ms))
    {
      assert ms[i..][1..] == ms[i + 1..];
      var entry := EntryHits(ms[i]);
      HarvestConcat(so, entry, PageHits(ms[i + 1..]));
      ghost var before := so;
      assert entry[0..] == entry;
      for k := 0 to |entry|
        invariant Harvest(so, entry[k..]) == Harvest(before, entry)
        invariant HarvestRaises(so, entry[k..]) == HarvestRaises(before, entry)
      {
        assert entry[k..][1..] == entry[k + 1..];
        if Unreadable(entry[k], so) {
          return None;
        }
        if !Known(entry[k], so) {
          so := so + [entry[k]];
        }
      }
    }
    hits := Some(so);
  }

  lemma {:induction false} HarvestConcat(kept: seq<Hit>, a: seq<Hit>, b: seq<Hit>)
    ensures Harvest(kept, a + b) == Harvest(Harvest(kept, a), b)
    ensures HarvestRaises(kept, a + b) <==> HarvestRaises(kept, a) || HarvestRaises(Harvest(kept, a), b)
    decreases |a|
  {
    hide Known, Unreadable;
    if a == [] {
      assert a + b == b;
    } else {
      assert (a + b)[1..] == a[1..] + b;
      HarvestConcat(if Known(a[0], kept) then kept else kept + [a[0]], a[1..], b);
    }
  }

  // ----- the page loop -----

  /** What a page request brings: a page, a transport error, or an exception on a reply that is not read as an object. */
  datatype PageReply = Page(data: Data) | Lost | Raising

  /** The reply to the request at a given turn and offset. */
  type Server = (nat, int) -> PageReply

  /** Whether paging is over: the reply says so, or it has neither a flag nor a cursor. */
  function Complete(d: Data): bool {
    d.counts.complete == Some(true) || (d.counts.complete.None? && d.next.None?)
  }

  /** The cursor of the reply when it fits the query, else the arithmetic fallback. */
  function NextOffset(d: Data, query: string): int {
    if d.next.Some? && d.next.value.offset.Some?
       && (d.next.value.query.None? || d.next.value.query.value == query)
    then d.next.value.offset.value else d.counts.offset + d.counts.returned
  }

  datatype Ending = Over | TransportLost | Raised

  datatype Collected = Collected(hits: seq<Hit>, pages: nat, ending: Ending)

  /** A total that differs from the one of the page before, when that one named one. */
  predicate TotalChanged(page: Data, next: Data) {
    next.counts.total != page.counts.total && page.counts.total.Some?
  }

  /** Paging on from a page whose hits have been harvested. */
  function Collect(server: Server, query: string, page: Data, pages: nat, hits: seq<Hit>): Collected
    decreases MAX_PAGES - pages
  {
    if Complete(page) || pages >= MAX_PAGES then Collected(hits, pages, Over)
    else
      match server(pages, NextOffset(page, query))
      case Lost => Collected(hits, pages + 1, TransportLost)
      case Raising => Collected(hits, pages, Raised)
      case Page(next) =>
        if TotalChanged(page, next) then Collected(hits, pages + 1, Over)
        else if HarvestRaises(hits, PageHits(next.matches)) then Collected(hits, pages + 1, Raised)
        else Collect(server, query, next, pages + 1, Harvest(hits, PageHits(next.matches)))
  }

  /** Paging from the first page on. */
  function Collecting(server: Server, query: string, first: Data): Collected {
    if HarvestRaises([], PageHits(first.matches)) then Collected([], 1, Raised)
    else Collect(server, query, first, 1, Harvest([], PageHits(first.matches)))
  }

  datatype Found = Found(occurrences: nat, handle: string, editable: bool, code: string, paragraph: string)

  function FoundOf(hits: seq<Hit>): Found {
    if |hits| == 1 then Found(1, hits[0].handle, hits[0].editable, hits[0].code, hits[0].paragraph)
    else Found(|hits|, "", false, "", "")
  }

  /** `_collect_single`: the report, the number of pages, and how paging ended. */
  method CollectSingle(server: Server, query: string, first: Data) returns (found: Found, pages: nat, ending: Ending)
    ensures var c := Collecting(server, query, first);
            pages == c.pages && ending == c.ending
            && found == (if ending.Over? then FoundOf(c.hits) else Found(|c.hits|, "", false, "", ""))
    ensures 1 <= pages <= MAX_PAGES
  {
    hide HarvestRaises, Harvest, PageHits, Complete, NextOffset, TotalChanged;
    pages := 1;
    var start := HarvestPage([], first.matches);
    if start.None? {
      return Found(0, "", false, "", ""), 1, Raised;
    }
    var hits := start.value;
    var page := first;
    while !Complete(page) && pages < MAX_PAGES
      invariant 1 <= pages <= MAX_PAGES
      invariant Collect(server, query, page, pages, hits) == Collecting(server, query, first)
      decreases MAX_PAGES - pages
    {
      var reply := server(pages, NextOffset(page, query));
      match reply {
        case Lost =>
          return Found(|hits|, "", false, "", ""), pages + 1, TransportLost;
        case Raising =>
          return Found(|hits|, "", false, "", ""), pages, Raised;
        case Page(next) =>
          if TotalChanged(page, next) {
            return FoundOf(hits), pages + 1, Over;
          }
          var more := HarvestPage(hits, next.matches);
          if more.None? {
            return Found(|hits|, "", false, "", ""), pages + 1, Raised;
          }
          hits := more.value;
          page := next;
          pages := pages + 1;
      }
    }
    return FoundOf(hits), pages, Over;
  }

  /** The page requests that paging on makes: turn and offset. */
  function Requests(server: Server, query: string, page: Data, pages: nat, hits: seq<Hit>): seq<(nat, int)>
    decreases MAX_PAGES - pages
  {
    if Complete(page) || pages >= MAX_PAGES then []
    else
      [(pages, NextOffset(page, query))]
      + match server(pages, NextOffset(page, query))
        case Page(next) =>
          if TotalChanged(page, next) || HarvestRaises(hits, PageHits(next.matches)) then []
          else Requests(server, query, next, pages + 1, Harvest(hits, PageHits(next.matches)))
        case _ => []
  }

  /** A request that is lost or raises decides how paging ends. */
  lemma {:induction false} RequestDecides(server: Server, query: string, page: Data, pages: nat, hits: seq<Hit>, r: (nat, int))
    requires r in Requests(server, query, page, pages, hits)
    ensures server(r.0, r.1).Lost? ==> Collect(server, query, page, pages, hits).ending.TransportLost?
    ensures server(r.0, r.1).Raising? ==> Collect(server, query, page, pages, hits).ending.Raised?
    decreases MAX_PAGES - pages
  {
    hide PageHits, Harvest, HarvestRaises, Complete, NextOffset, TotalChanged;
    var own := (pages, NextOffset(page, query));
    var reply := server(pages, NextOffset(page, query));
    if r != own {
      var next := reply.data;
      RequestDecides(server, query, next, pages + 1, Harvest(hits, PageHits(next.matches)), r);
    }
  }

  /** Paging depends on the replies to its requests and on nothing else. */
  lemma {:induction false} OnlyRequestsMatter(server: Server, other: Server, query: string, page: Data, pages: nat, hits: seq<Hit>)
    requires forall r :: r in Requests(server, query, page, pages, hits) ==> other(r.0, r.1) == server(r.0, r.1)
    ensures Collect(other, query, page, pages, hits) == Collect(server, query, page, pages, hits)
    decreases MAX_PAGES - pages
  {
    hide PageHits, Harvest, HarvestRaises, Complete, NextOffset, TotalChanged;
    if !Complete(page) && pages < MAX_PAGES {
      var own := (pages, NextOffset(page, query));
      assert own in Requests(server, query, page, pages, hits);
      assert other(own.0, own.1) == server(own.0, own.1);
      var reply := server(own.0, own.1);
      if reply.Page? && !TotalChanged(page, reply.data) && !HarvestRaises(hits, PageHits(reply.data.matches)) {
        OnlyRequestsMatter(server, other, query, reply.data, pages + 1, Harvest(hits, PageHits(reply.data.matches)));
      }
    }
  }

  // ----- what a harvest is -----

  function Handles(hits: seq<Hit>): set<string> {
    set i | 0 <= i < |hits| :: hits[i].handle
  }

  lemma {:induction false} HandlesConcat(a: seq<Hit>, b: seq<Hit>)
    ensures Handles(a + b) == Handles(a) + Handles(b)
  {
    forall h | h in Handles(a) + Handles(b) ensures h in Handles(a + b) {
      if h in Handles(a) {
        var i :| 0 <= i < |a| && a[i].handle == h;
        assert (a + b)[i].handle == h;
      } else {
        var i :| 0 <= i < |b| && b[i].handle == h;
        assert (a + b)[|a| + i].handle == h;
      }
    }
  }

  lemma {:induction false} HandlesOne(h: Hit)
    ensures Handles([h]) == {h.handle} && Handles([]) == {}
  {
    assert [h][0].handle in Handles([h]);
  }

  ghost predicate Distinct(hits: seq<Hit>) {
    forall i, j :: 0 <= i < j < |hits| && hits[i].handle != "" ==> hits[i].handle != hits[j].handle
  }

  /** Whatever the pages repeat, every handle is kept once and none is lost. */
  lemma {:induction false} HarvestKeepsEach(kept: seq<Hit>, hits: seq<Hit>)
    requires Distinct(kept)
    ensures Distinct(Harvest(kept, hits))
    ensures Handles(Harvest(kept, hits)) == Handles(kept) + Handles(hits)
    decreases |hits|
  {
    if hits != [] {
      var next := if Known(hits[0], kept) then kept else kept + [hits[0]];
      HarvestKeepsEach(next, hits[1..]);
      HandlesOne(hits[0]);
      HandlesConcat([hits[0]], hits[1..]);
      assert hits == [hits[0]] + hits[1..];
      HandlesConcat(kept, [hits[0]]);
      assert Known(hits[0], kept) ==> hits[0].handle in Handles(kept);
    }
  }

  ghost predicate Named(hits: seq<Hit>) {
    forall i :: 0 <= i < |hits| ==> hits[i].handle != ""
  }

  /** With named hits the number kept is the number of different handles. */
  lemma {:induction false} DistinctSize(hits: seq<Hit>)
    requires Distinct(hits) && Named(hits)
    ensures |hits| == |Handles(hits)|
    decreases |hits|
  {
    if hits != [] {
      var n := |hits| - 1;
      DistinctSize(hits[..n]);
      HandlesOne(hits[n]);
      HandlesConcat(hits[..n], [hits[n]]);
      assert hits == hits[..n] + [hits[n]];
      assert hits[n].handle !in Handles(hits[..n]);
    }
  }

  lemma {:induction false} HarvestNamed(kept: seq<Hit>, hits: seq<Hit>)
    requires Named(kept) && Named(hits)
    ensures Named(Harvest(kept, hits))
    decreases |hits|
  {
    if hits != [] {
      HarvestNamed(if Known(hits[0], kept) then kept else kept + [hits[0]], hits[1..]);
    }
  }

  ghost predicate AllReadable(hits: seq<Hit>) {
    forall i :: 0 <= i < |hits| ==> hits[i].shape.Readable?
  }

  lemma {:induction false} ReadableHarvest(kept: seq<Hit>, hits: seq<Hit>)
    requires AllReadable(hits)
    ensures !HarvestRaises(kept, hits)
    decreases |hits|
  {
    hide Known;
    if hits != [] {
      ReadableHarvest(if Known(hits[0], kept) then kept else kept + [hits[0]], hits[1..]);
    }
  }

  lemma {:induction false} PageHitsConcat(a: seq<Match>, b: seq<Match>)
    ensures PageHits(a + b) == PageHits(a) + PageHits(b)
    decreases |a|
  {
    if a == [] {
      assert a + b == b;
    } else {
      assert (a + b)[1..] == a[1..] + b;
      PageHitsConcat(a[1..], b);
    }
  }

  lemma {:induction false} PartsNamed(a: seq<Hit>, b: seq<Hit>)
    ensures Named(a + b) <==> Named(a) && Named(b)
    ensures AllReadable(a + b) <==> AllReadable(a) && AllReadable(b)
  {
    forall i | 0 <= i < |a| ensures (a + b)[i] == a[i] {}
    forall i | 0 <= i < |b| ensures (a + b)[|a| + i] == b[i] {}
  }

  /** What holds of every hit of the list holds of those of a stretch of it. */
  lemma {:induction false} StretchNamed(blocks: seq<Match>, from: nat, end: nat)
    requires from <= end <= |blocks|
    ensures Named(PageHits(blocks)) ==> Named(PageHits(blocks[from..end]))
    ensures AllReadable(PageHits(blocks)) ==> AllReadable(PageHits(blocks[from..end]))
  {
    hide PageHits, Named, AllReadable;
    var a, b, c := blocks[..from], blocks[from..end], blocks[end..];
    assert blocks == a + b + c;
    PageHitsConcat(a + b, c);
    PageHitsConcat(a, b);
    PartsNamed(PageHits(a + b), PageHits(c));
    PartsNamed(PageHits(a), PageHits(b));
  }

  // ----- any server that pages a fixed list without gaps -----

  /** The page is the stretch of the list from `offset` on that it lists, of whatever size, and it does not end early. */
  ghost predicate PageOf(blocks: seq<Match>, query: string, offset: nat, d: Data) {
    var end := offset + |d.matches|;
    && end <= |blocks| && d.matches == blocks[offset..end]
    && (if Complete(d) then end == |blocks| else 0 <= NextOffset(d, query) <= end)
  }

  /** Every page is a stretch from the requested offset on; the next offset may repeat blocks but skips none. */
  ghost predicate Gapless(server: Server, blocks: seq<Match>, query: string) {
    forall turn, offset: nat :: offset <= |blocks| ==>
      server(turn, offset) != Raising
      && (server(turn, offset).Page? ==> PageOf(blocks, query, offset, server(turn, offset).data))
  }

  /** The loop ends because a page says that it is the last one. */
  predicate Completes(server: Server, query: string, page: Data, pages: nat)
    decreases MAX_PAGES - pages
  {
    if Complete(page) then true
    else if pages >= MAX_PAGES then false
    else
      match server(pages, NextOffset(page, query))
      case Page(next) => !TotalChanged(page, next) && Completes(server, query, next, pages + 1)
      case _ => false
  }

  /** How many blocks of the list have been read when paging from `page` on stops, `reach` having been read so far. */
  function Reach(server: Server, query: string, page: Data, pages: nat, reach: nat): nat
    decreases MAX_PAGES - pages
  {
    if Complete(page) || pages >= MAX_PAGES then reach
    else
      match server(pages, NextOffset(page, query))
      case Page(next) =>
        var end := NextOffset(page, query) + |next.matches|;
        if TotalChanged(page, next) then reach
        else Reach(server, query, next, pages + 1, if end > reach then end else reach)
      case _ => reach
  }

  function HandlesTo(blocks: seq<Match>, n: nat): set<string>
    requires n <= |blocks|
  {
    Handles(PageHits(blocks[..n]))
  }

  lemma {:induction false} HandlesSplit(a: seq<Match>, b: seq<Match>)
    ensures Handles(PageHits(a + b)) == Handles(PageHits(a)) + Handles(PageHits(b))
  {
    hide Handles, PageHits;
    PageHitsConcat(a, b);
    HandlesConcat(PageHits(a), PageHits(b));
  }

  /** A further stretch that starts no later than the known part ends extends it. */
  lemma {:induction false} HandlesOverlap(blocks: seq<Match>, reach: nat, from: nat, end: nat)
    requires from <= reach <= |blocks| && from <= end <= |blocks|
    ensures HandlesTo(blocks, reach) + Handles(PageHits(blocks[from..end]))
         == HandlesTo(blocks, if end > reach then end else reach)
  {
    hide Handles, PageHits;
    if end <= reach {
      assert blocks[..reach] == blocks[..from] + blocks[from..end] + blocks[end..reach];
      HandlesSplit(blocks[..from] + blocks[from..end], blocks[end..reach]);
      HandlesSplit(blocks[..from], blocks[from..end]);
    } else {
      assert blocks[..end] == blocks[..reach] + blocks[reach..end];
      assert blocks[from..end] == blocks[from..reach] + blocks[reach..end];
      assert blocks[..reach] == blocks[..from] + blocks[from..reach];
      HandlesSplit(blocks[..reach], blocks[reach..end]);
      HandlesSplit(blocks[from..reach], blocks[reach..end]);
      HandlesSplit(blocks[..from], blocks[from..reach]);
    }
  }

  /** The hits are those of the first `reach` blocks, each handle once. */
  ghost predicate HasRead(blocks: seq<Match>, hits: seq<Hit>, reach: nat)
    requires reach <= |blocks|
  {
    Distinct(hits) && Named(hits) && Handles(hits) == HandlesTo(blocks, reach)
  }

  lemma {:induction false} ReadsOn(blocks: seq<Match>, hits: seq<Hit>, reach: nat, from: nat, end: nat)
    requires from <= reach <= |blocks| && from <= end <= |blocks| && HasRead(blocks, hits, reach)
    requires Named(PageHits(blocks)) && AllReadable(PageHits(blocks))
    ensures var more := PageHits(blocks[from..end]);
            !HarvestRaises(hits, more) && HasRead(blocks, Harvest(hits, more), if end > reach then end else reach)
  {
    hide Handles, PageHits, Distinct, Harvest, HarvestRaises, Named, AllReadable;
    var more := PageHits(blocks[from..end]);
    StretchNamed(blocks, from, end);
    ReadableHarvest(hits, more);
    HarvestKeepsEach(hits, more);
    HarvestNamed(hits, more);
    HandlesOverlap(blocks, reach, from, end);
  }

  /** `reach` blocks have been read without a gap when the page at `offset` has been harvested. */
  lemma {:induction false} CollectGapless(server: Server, blocks: seq<Match>, query: string, page: Data, offset: nat,
                                          pages: nat, hits: seq<Hit>, reach: nat)
    requires Gapless(server, blocks, query) && PageOf(blocks, query, offset, page)
    requires Named(PageHits(blocks)) && AllReadable(PageHits(blocks))
    requires offset + |page.matches| <= reach <= |blocks| && HasRead(blocks, hits, reach)
    ensures var c, r := Collect(server, query, page, pages, hits), Reach(server, query, page, pages, reach);
            && !c.ending.Raised? && r <= |blocks|
            && (c.ending.Over? ==> HasRead(blocks, c.hits, r))
            && (Completes(server, query, page, pages) ==> c.ending.Over? && r == |blocks|)
    decreases MAX_PAGES - pages
  {
    hide PageHits, Harvest, HarvestRaises, Complete, NextOffset, TotalChanged, HasRead, Named, AllReadable;
    if !Complete(page) && pages < MAX_PAGES {
      var at := NextOffset(page, query);
      var reply := server(pages, at);
      if reply.Page? && !TotalChanged(page, reply.data) {
        var next := reply.data;
        var end := at + |next.matches|;
        assert PageOf(blocks, query, at, next);
        ReadsOn(blocks, hits, reach, at, end);
        CollectGapless(server, blocks, query, next, at, pages + 1, Harvest(hits, PageHits(next.matches)),
                       if end > reach then end else reach);
      }
    }
  }

  lemma {:induction false} NothingRead(blocks: seq<Match>)
    ensures HasRead(blocks, [], 0)
  {
    assert blocks[..0] == [];
  }

  lemma {:induction false} SubsetSize<T>(a: set<T>, b: set<T>)
    requires a <= b
    ensures |a| == |b| <==> a == b
  {
    if a != b {
      assert b == a + (b - a);
      assert |b| == |a| + |b - a|;
      assert b - a != {};
    }
  }

  /** The blocks that were not read list no handle that the blocks before them do not list. */
  ghost predicate NothingNew(blocks: seq<Match>, read: nat)
    requires read <= |blocks|
  {
    Handles(PageHits(blocks[read..])) <= HandlesTo(blocks, read)
  }

  /**
   Against any server that pages a fixed list of named hits, in pages of any size and with repeats, and however the
   loop ends short of a transport error (a last page, a changed total or ten pages): what was harvested are the handles
   of the blocks read, each once, and the report is right if and only if the blocks not read list nothing new.
   */
  lemma {:induction false} ReportRight(server: Server, blocks: seq<Match>, query: string, first: Data)
    requires Gapless(server, blocks, query) && PageOf(blocks, query, 0, first)
    requires Named(PageHits(blocks)) && AllReadable(PageHits(blocks))
    ensures var c, r := Collecting(server, query, first), Reach(server, query, first, 1, |first.matches|);
            && !c.ending.Raised? && r <= |blocks|
            && (c.ending.Over? ==>
                  && Distinct(c.hits) && Handles(c.hits) == HandlesTo(blocks, r)
                  && (FoundOf(c.hits).occurrences == |Handles(PageHits(blocks))| <==> NothingNew(blocks, r)))
            && (Completes(server, query, first, 1) ==> c.ending.Over? && r == |blocks|)
  {
    hide Handles, PageHits, Distinct, Harvest, HarvestRaises, Completes, Collect, Gapless, Named, AllReadable, Reach;
    var n := |first.matches|;
    assert first.matches == blocks[0..n];
    NothingRead(blocks);
    ReadsOn(blocks, [], 0, 0, n);
    CollectGapless(server, blocks, query, first, 0, 1, Harvest([], PageHits(first.matches)), n);
    var c, r := Collecting(server, query, first), Reach(server, query, first, 1, n);
    if c.ending.Over? {
      assert HasRead(blocks, c.hits, r);
      DistinctSize(c.hits);
      assert blocks == blocks[..r] + blocks[r..];
      HandlesSplit(blocks[..r], blocks[r..]);
      SubsetSize(HandlesTo(blocks, r), Handles(PageHits(blocks)));
    }
  }

  /** When paging completes, every handle of the list has been harvested once, so the report is right. */
  lemma {:induction false} CompletePagingExact(server: Server, blocks: seq<Match>, query: string, first: Data)
    requires Gapless(server, blocks, query) && PageOf(blocks, query, 0, first) && Completes(server, query, first, 1)
    requires Named(PageHits(blocks)) && AllReadable(PageHits(blocks))
    ensures var c := Collecting(server, query, first);
            && c.ending.Over? && Distinct(c.hits) && Handles(c.hits) == Handles(PageHits(blocks))
            && FoundOf(c.hits).occurrences == |Handles(PageHits(blocks))|
  {
    hide Handles, PageHits, Distinct, Completes, Collecting, Gapless, Named, AllReadable, Reach;
    ReportRight(server, blocks, query, first);
    assert blocks[..|blocks|] == blocks && blocks[|blocks|..] == [];
    NoHandles();
  }

  lemma {:induction false} NoHandles()
    ensures Handles(PageHits([])) == {}
  {}

  // ----- an honest server: full pages, asked for in order -----

  function Slice<T>(s: seq<T>, a: nat, b: nat): seq<T> {
    var hi := if b > |s| then |s| else b;
    if a < hi then s[a..hi] else []
  }

  /** The page of at most `PAGE_LIMIT` blocks from `offset` on; `cursor` says whether it also names the next call. */
  function HonestPage(blocks: seq<Match>, query: string, total: Option<int>, cursor: bool, offset: nat): Data {
    var ms := Slice(blocks, offset, offset + PAGE_LIMIT);
    var done := offset + PAGE_LIMIT >= |blocks|;
    Data(ms, Counts(Some(done), offset, |ms|, total),
         if done || !cursor then None else Some(NextCall(Some(query), Some(offset + PAGE_LIMIT))))
  }

  ghost predicate Honest(server: Server, blocks: seq<Match>, query: string, total: Option<int>, cursor: bool) {
    forall turn, offset: nat :: server(turn, offset) == Page(HonestPage(blocks, query, total, cursor, offset))
  }

  /** Everything the blocks list in the pages that are read: ten of them at most. */
  function Reachable(blocks: seq<Match>): seq<Hit> {
    PageHits(Slice(blocks, 0, MAX_PAGES * PAGE_LIMIT))
  }

  /** A page is the next stretch of blocks; the rest follows it. */
  lemma {:induction false} PageThenRest(blocks: seq<Match>, query: string, total: Option<int>, cursor: bool, at: nat)
    requires at + PAGE_LIMIT <= MAX_PAGES * PAGE_LIMIT
    ensures var page := HonestPage(blocks, query, total, cursor, at);
            && Slice(blocks, at, MAX_PAGES * PAGE_LIMIT)
               == page.matches + Slice(blocks, at + PAGE_LIMIT, MAX_PAGES * PAGE_LIMIT)
            && (Complete(page) <==> at + PAGE_LIMIT >= |blocks|)
            && (page.counts.complete == Some(true) <==> Complete(page)) && page.counts.complete.Some?
            && (!Complete(page) ==> NextOffset(page, query) == at + PAGE_LIMIT && CursorFits(page, query))
            && page.counts.total == total
    ensures at + PAGE_LIMIT >= |blocks| || at + PAGE_LIMIT == MAX_PAGES * PAGE_LIMIT ==>
              Slice(blocks, at + PAGE_LIMIT, MAX_PAGES * PAGE_LIMIT) == []
  {}

  lemma {:induction false} ListedEnds(server: Server, query: string, page: Data, pages: nat)
    requires Complete(page) || pages >= MAX_PAGES
    ensures Listed(server, query, page, pages) == []
    ensures page.counts.complete == Some(true) || (page.counts.complete.Some? && pages >= MAX_PAGES) ==>
              Steady(server, query, page, pages)
  {}

  lemma {:induction false} ListedGoesOn(server: Server, query: string, page: Data, pages: nat, next: Data)
    requires !Complete(page) && pages < MAX_PAGES && page.counts.complete.Some? && CursorFits(page, query)
    requires server(pages, NextOffset(page, query)) == Page(next) && next.counts.total == page.counts.total
    ensures Listed(server, query, page, pages) == PageHits(next.matches) + Listed(server, query, next, pages + 1)
    ensures Steady(server, query, next, pages + 1) ==> Steady(server, query, page, pages)
  {
    hide PageHits;
  }

  /** `from` is where the page that was just read starts, k the number of pages read. */
  lemma {:induction false} HonestListed(server: Server, blocks: seq<Match>, query: string, total: Option<int>, cursor: bool,
                                        k: nat, from: nat)
    requires Honest(server, blocks, query, total, cursor) && 1 <= k <= MAX_PAGES && from == (k - 1) * PAGE_LIMIT
    ensures var page := HonestPage(blocks, query, total, cursor, from);
            && Steady(server, query, page, k)
            && Listed(server, query, page, k) == PageHits(Slice(blocks, from + PAGE_LIMIT, MAX_PAGES * PAGE_LIMIT))
    decreases MAX_PAGES - k
  {
    hide HonestPage, Slice, Complete, NextOffset, Listed, Steady, PageHits, CursorFits;
    var page := HonestPage(blocks, query, total, cursor, from);
    var at := from + PAGE_LIMIT;
    PageThenRest(blocks, query, total, cursor, from);
    if Complete(page) || k == MAX_PAGES {
      ListedEnds(server, query, page, k);
      NoPageHits();
    } else {
      var next := HonestPage(blocks, query, total, cursor, at);
      assert server(k, at) == Page(next);
      PageThenRest(blocks, query, total, cursor, at);
      ListedGoesOn(server, query, page, k, next);
      HonestListed(server, blocks, query, total, cursor, k + 1, at);
      PageHitsConcat(next.matches, Slice(blocks, at + PAGE_LIMIT, MAX_PAGES * PAGE_LIMIT));
    }
  }

  lemma {:induction false} NoPageHits()
    ensures PageHits([]) == []
  {}

  /** All that an honest server lists on the pages read are the hits of the first 2000 blocks. */
  lemma {:induction false} HonestAll(server: Server, blocks: seq<Match>, query: string, total: Option<int>, cursor: bool)
    requires Honest(server, blocks, query, total, cursor)
    ensures var first := HonestPage(blocks, query, total, cursor, 0);
            && server(0, 0) == Page(first) && Steady(server, query, first, 1)
            && PageHits(first.matches) + Listed(server, query, first, 1) == Reachable(blocks)
  {
    hide HonestPage, Slice, Complete, NextOffset, Listed, Steady, PageHits, CursorFits;
    var first := HonestPage(blocks, query, total, cursor, 0);
    HonestListed(server, blocks, query, total, cursor, 1, 0);
    PageThenRest(blocks, query, total, cursor, 0);
    PageHitsConcat(first.matches, Slice(blocks, PAGE_LIMIT, MAX_PAGES * PAGE_LIMIT));
  }

  /**
   Against an honest server the report is that of every block among the first 2000: the number of different handles
   there, and with exactly one, that one.
   */
  lemma {:induction false} CollectExact(server: Server, blocks: seq<Match>, query: string, total: Option<int>, cursor: bool)
    requires Honest(server, blocks, query, total, cursor)
    requires Named(Reachable(blocks)) && AllReadable(Reachable(blocks))
    ensures var first := HonestPage(blocks, query, total, cursor, 0);
            var c := Collecting(server, query, first);
            && c.ending.Over? && c.pages <= MAX_PAGES
            && c.hits == Harvest([], Reachable(blocks))
            && |c.hits| == |Handles(Reachable(blocks))| && Handles(c.hits) == Handles(Reachable(blocks))
            && FoundOf(c.hits).occurrences == |Handles(Reachable(blocks))|
  {
    hide HonestPage, Reachable, Listed, Steady, PageHits, Harvest, HarvestRaises, Collect, Handles, Named, AllReadable;
    var first := HonestPage(blocks, query, total, cursor, 0);
    var all := Reachable(blocks);
    HonestAll(server, blocks, query, total, cursor);
    var a, b := PageHits(first.matches), Listed(server, query, first, 1);
    PartsNamed(a, b);
    ReadableHarvest([], a);
    CollectSteady(server, query, first, 1, Harvest([], a));
    HarvestConcat([], a, b);
    NothingKept();
    HarvestKeepsEach([], all);
    HarvestNamed([], all);
    DistinctSize(Harvest([], all));
  }

  lemma {:induction false} NothingKept()
    ensures Distinct([]) && Handles([]) == {} && Named([])
  {}

  /** Up to 2000 blocks are all of them. */
  lemma {:induction false} AllReachable(blocks: seq<Match>)
    requires |blocks| <= MAX_PAGES * PAGE_LIMIT
    ensures Reachable(blocks) == PageHits(blocks)
  {
    assert Slice(blocks, 0, MAX_PAGES * PAGE_LIMIT) == blocks;
  }

  lemma {:induction false} ReachableHandles(blocks: seq<Match>)
    ensures Handles(Reachable(blocks)) <= Handles(PageHits(blocks))
  {
    hide Handles, PageHits;
    if |blocks| <= MAX_PAGES * PAGE_LIMIT {
      AllReachable(blocks);
    } else {
      var n := MAX_PAGES * PAGE_LIMIT;
      assert blocks == blocks[..n] + blocks[n..];
      HandlesSplit(blocks[..n], blocks[n..]);
    }
  }

  /**
   So it reports the true number of handles if and only if the first 2000 blocks list them all, as they do whenever
   there are no more than 2000 blocks.
   */
  lemma {:induction false} HonestReportRight(server: Server, blocks: seq<Match>, query: string, total: Option<int>, cursor: bool)
    requires Honest(server, blocks, query, total, cursor)
    requires Named(Reachable(blocks)) && AllReadable(Reachable(blocks))
    ensures var c := Collecting(server, query, HonestPage(blocks, query, total, cursor, 0));
            FoundOf(c.hits).occurrences == |Handles(PageHits(blocks))| <==> Handles(Reachable(blocks)) == Handles(PageHits(blocks))
    ensures |blocks| <= MAX_PAGES * PAGE_LIMIT ==> Handles(Reachable(blocks)) == Handles(PageHits(blocks))
  {
    hide HonestPage, Reachable, PageHits, Harvest, Collecting, Handles, Named, AllReadable;
    CollectExact(server, blocks, query, total, cursor);
    ReachableHandles(blocks);
    SubsetSize(Handles(Reachable(blocks)), Handles(PageHits(blocks)));
    if |blocks| <= MAX_PAGES * PAGE_LIMIT {
      AllReachable(blocks);
    }
  }

  // ----- where exactness ends -----

  function OneHit(handle: string): Match {
    Match("P0", [Occurrence(handle, Readable, true, "")], Occurrence("", Readable, false, ""))
  }

  /** 2001 blocks, 2000 with the handle `a` and a last one with `b`: the second handle is never seen. */
  lemma {:induction false} SecondHandleMissed(server: Server, blocks: seq<Match>)
    requires blocks == seq(2000, i => OneHit("a")) + [OneHit("b")]
    requires Honest(server, blocks, "q", None, true)
    ensures var c := Collecting(server, "q", HonestPage(blocks, "q", None, true, 0));
            FoundOf(c.hits).occurrences == 1 && Handles(PageHits(blocks)) == {"a", "b"}
  {
    hide Collecting, Honest, HonestPage, Harvest, PageHits, Handles, Named, AllReadable;
    var many := seq(2000, i => OneHit("a"));
    FirstSlice(many, OneHit("b"));
    SameHandle(many);
    CollectExact(server, blocks, "q", None, true);
    PageHitsConcat(many, [OneHit("b")]);
    OneEntry("b");
    HandlesConcat(PageHits(many), PageHits([OneHit("b")]));
  }

  lemma {:induction false} FirstSlice(many: seq<Match>, last: Match)
    requires |many| == MAX_PAGES * PAGE_LIMIT
    ensures Slice(many + [last], 0, MAX_PAGES * PAGE_LIMIT) == many
  {}

  lemma {:induction false} OneEntry(handle: string)
    ensures PageHits([OneHit(handle)]) == [Hit(handle, Readable, true, "", "P0")]
    ensures Handles(PageHits([OneHit(handle)])) == {handle}
  {
    assert [OneHit(handle)][1..] == [];
    assert EntryHits(OneHit(handle)) == [Hit(handle, Readable, true, "", "P0")];
    HandlesOne(Hit(handle, Readable, true, "", "P0"));
  }

  lemma {:induction false} SameHandle(ms: seq<Match>)
    requires ms != [] && forall i :: 0 <= i < |ms| ==> ms[i] == OneHit("a")
    ensures Handles(PageHits(ms)) == {"a"} && Named(PageHits(ms)) && AllReadable(PageHits(ms))
    decreases |ms|
  {
    var own := EntryHits(ms[0]);
    assert own == [Hit("a", Readable, true, "", "P0")];
    HandlesOne(Hit("a", Readable, true, "", "P0"));
    HandlesConcat(own, PageHits(ms[1..]));
    if |ms| > 1 {
      SameHandle(ms[1..]);
    } else {
      assert ms[1..] == [];
      HandlesOne(Hit("a", Readable, true, "", "P0"));
    }
  }

  /** A total that changes between pages ends the loop, but one hit on the first page is still reported as the only one. */
  lemma {:induction false} ChangedTotalStillSingle(server: Server)
    requires server(1, 1) == Page(Data([OneHit("b")], Counts(Some(true), 1, 1, Some(2)), None))
    ensures var first := Data([OneHit("a")], Counts(Some(false), 0, 1, Some(1)), None);
            var c := Collecting(server, "q", first);
            c.ending.Over? && FoundOf(c.hits) == Found(1, "a", true, "", "P0")
  {
    assert [OneHit("a")][1..] == [];
    var hits := PageHits([OneHit("a")]);
    assert hits == [Hit("a", Readable, true, "", "P0")];
    assert hits[1..] == [];
    assert Harvest([], hits) == hits && !HarvestRaises([], hits);
  }

  /**
   So against a server that pages a fixed list: when the second page names another total, what is reported are the hits
   of the first page, and the report is right if and only if the blocks behind that page list nothing new.
   */
  lemma {:induction false} ChangedTotalRight(server: Server, blocks: seq<Match>, query: string, first: Data, next: Data)
    requires Gapless(server, blocks, query) && PageOf(blocks, query, 0, first) && !Complete(first)
    requires Named(PageHits(blocks)) && AllReadable(PageHits(blocks))
    requires server(1, NextOffset(first, query)) == Page(next) && TotalChanged(first, next)
    ensures var c := Collecting(server, query, first);
            && c.ending.Over? && c.hits == Harvest([], PageHits(first.matches))
            && (FoundOf(c.hits).occurrences == |Handles(PageHits(blocks))| <==> NothingNew(blocks, |first.matches|))
  {
    hide PageHits, Harvest, HarvestRaises, Complete, NextOffset, TotalChanged, Named, AllReadable, Handles, NothingNew, Gapless;
    ReportRight(server, blocks, query, first);
  }

  // ----- _find_exact_one -----

  /** It counts every listed occurrence and remembers the first. */
  datatype Tally = Tally(occurrences: nat, first: Option<Hit>, pages: nat, ending: Ending)

  const NO_TALLY := Tally(0, None, 0, Over)

  function Tallied(hits: seq<Hit>, before: Tally): Tally {
    if hits == [] then before
    else before.(occurrences := before.occurrences + |hits|,
                 first := if before.occurrences == 0 then Some(hits[0]) else before.first)
  }

  /** Some hit is no object, or the very first one has a verdict that is none. */
  predicate TallyRaises(hits: seq<Hit>, before: Tally) {
    (exists i :: 0 <= i < |hits| && hits[i].shape.NoObject?)
    || (hits != [] && before.occurrences == 0 && hits[0].shape.NoVerdict?)
  }

  /** The cursor of the reply whatever query it names, else the arithmetic fallback. */
  function RawNext(d: Data): int {
    if d.next.Some? && d.next.value.offset.Some? then d.next.value.offset.value else d.counts.offset + d.counts.returned
  }

  function ExactOne(server: Server, query: string, offset: int, t: Tally): Tally
    requires t.pages < MAX_PAGES
    decreases MAX_PAGES - t.pages
  {
    match server(t.pages, offset)
    case Lost => t.(ending := TransportLost)
    case Raising => t.(ending := Raised)
    case Page(d) =>
      if TallyRaises(PageHits(d.matches), t) then t.(ending := Raised)
      else
        var next := Tallied(PageHits(d.matches), t).(pages := t.pages + 1);
        if d.counts.complete == Some(true) || next.pages >= MAX_PAGES then next
        else ExactOne(server, query, RawNext(d), next)
  }

  /** `_find_exact_one` */
  method FindExactOne(server: Server, query: string) returns (t: Tally)
    ensures t == ExactOne(server, query, 0, NO_TALLY)
  {
    hide PageHits;
    t := NO_TALLY;
    var offset := 0;
    while true
      invariant t.pages < MAX_PAGES && t.ending.Over?
      invariant ExactOne(server, query, offset, t) == ExactOne(server, query, 0, NO_TALLY)
      decreases MAX_PAGES - t.pages
    {
      var reply := server(t.pages, offset);
      if reply.Lost? {
        return t.(ending := TransportLost);
      }
      if reply.Raising? {
        return t.(ending := Raised);
      }
      var d := reply.data;
      var hits := PageHits(d.matches);
      var occurrences, first := t.occurrences, t.first;
      ghost var start := t;
      for i := 0 to |hits|
        invariant occurrences == t.occurrences + i
        invariant first == if i > 0 && t.occurrences == 0 then Some(hits[0]) else t.first
        invariant forall j :: 0 <= j < i ==> !hits[j].shape.NoObject?
        invariant i > 0 && t.occurrences == 0 ==> !hits[0].shape.NoVerdict?
      {
        occurrences := occurrences + 1;
        if hits[i].shape.NoObject? {
          return t.(ending := Raised);
        }
        if occurrences == 1 {
          if hits[i].shape.NoVerdict? {
            return t.(ending := Raised);
          }
          first := Some(hits[i]);
        }
      }
      assert !TallyRaises(hits, start);
      t := Tally(occurrences, first, t.pages + 1, Over);
      assert t == Tallied(hits, start).(pages := start.pages + 1);
      if d.counts.complete == Some(true) || t.pages >= MAX_PAGES {
        return;
      }
      offset := RawNext(d);
    }
  }

  // ----- the two loops side by side -----

  /** The cursor, where there is one, names this query or none. */
  predicate CursorFits(d: Data, query: string) {
    d.next.Some? && d.next.value.offset.Some? ==> d.next.value.query.None? || d.next.value.query.value == query
  }

  /** Every page read from here on says whether it is the last, has a fitting cursor, and no reply is lost or changes the total. */
  predicate Steady(server: Server, query: string, page: Data, pages: nat)
    decreases MAX_PAGES - pages
  {
    && page.counts.complete.Some?
    && (page.counts.complete == Some(true) || pages >= MAX_PAGES ||
        (CursorFits(page, query) &&
         match server(pages, NextOffset(page, query))
         case Page(next) => !TotalChanged(page, next) && Steady(server, query, next, pages + 1)
         case _ => false))
  }

  /** Everything listed on the pages after this one. */
  function Listed(server: Server, query: string, page: Data, pages: nat): seq<Hit>
    decreases MAX_PAGES - pages
  {
    if Complete(page) || pages >= MAX_PAGES then []
    else
      match server(pages, NextOffset(page, query))
      case Page(next) => PageHits(next.matches) + Listed(server, query, next, pages + 1)
      case _ => []
  }

  lemma {:induction false} SteadyStep(server: Server, query: string, page: Data, pages: nat) returns (next: Data)
    requires Steady(server, query, page, pages) && page.counts.complete != Some(true) && pages < MAX_PAGES
    ensures !Complete(page) && NextOffset(page, query) == RawNext(page)
    ensures server(pages, NextOffset(page, query)) == Page(next) && !TotalChanged(page, next)
    ensures Steady(server, query, next, pages + 1)
    ensures Listed(server, query, page, pages) == PageHits(next.matches) + Listed(server, query, next, pages + 1)
  {
    hide PageHits, TotalChanged;
    next := server(pages, NextOffset(page, query)).data;
  }

  lemma {:induction false} SteadyEnd(server: Server, query: string, page: Data, pages: nat)
    requires Steady(server, query, page, pages) && (page.counts.complete == Some(true) || pages >= MAX_PAGES)
    ensures (Complete(page) || pages >= MAX_PAGES) && Listed(server, query, page, pages) == []
  {}

  /** Steady paging harvests everything listed. */
  lemma {:induction false} CollectSteady(server: Server, query: string, page: Data, pages: nat, hits: seq<Hit>)
    requires Steady(server, query, page, pages) && AllReadable(Listed(server, query, page, pages)) && pages <= MAX_PAGES
    ensures var c := Collect(server, query, page, pages, hits);
            && c.ending.Over? && c.pages <= MAX_PAGES
            && c.hits == Harvest(hits, Listed(server, query, page, pages))
    decreases MAX_PAGES - pages
  {
    hide Steady, Listed, PageHits, HarvestRaises, AllReadable, NextOffset, TotalChanged, Complete;
    if page.counts.complete == Some(true) || pages >= MAX_PAGES {
      SteadyEnd(server, query, page, pages);
    } else {
      var next := SteadyStep(server, query, page, pages);
      var more, later := PageHits(next.matches), Listed(server, query, next, pages + 1);
      PartsNamed(more, later);
      ReadableHarvest(hits, more);
      CollectSteady(server, query, next, pages + 1, Harvest(hits, more));
      HarvestConcat(hits, more, later);
    }
  }

  /** What the second loop makes of a page that has been counted. */
  function ExactAfter(server: Server, query: string, page: Data, t: Tally): Tally {
    if page.counts.complete == Some(true) || t.pages >= MAX_PAGES then t else ExactOne(server, query, RawNext(page), t)
  }

  lemma {:induction false} TalliedConcat(a: seq<Hit>, b: seq<Hit>, t: Tally, n: nat)
    ensures Tallied(a + b, t) == Tallied(b, Tallied(a, t))
    ensures Tallied(a, t.(pages := n)) == Tallied(a, t).(pages := n)
    ensures Tallied(a, t).pages == t.pages && Tallied(a, t).ending == t.ending
  {
    if a == [] {
      assert a + b == b;
    } else if b == [] {
      assert a + b == a;
    }
  }

  lemma {:induction false} ReadableTally(hits: seq<Hit>, t: Tally)
    requires AllReadable(hits)
    ensures !TallyRaises(hits, t)
  {}

  /** Steady paging counts everything listed. */
  lemma {:induction false} ExactSteady(server: Server, query: string, page: Data, t: Tally)
    requires Steady(server, query, page, t.pages) && AllReadable(Listed(server, query, page, t.pages))
    ensures var e := ExactAfter(server, query, page, t);
            e == Tallied(Listed(server, query, page, t.pages), t).(pages := e.pages)
    decreases MAX_PAGES - t.pages
  {
    hide Steady, Listed, PageHits, AllReadable, NextOffset, TotalChanged, Complete, TallyRaises, Tallied, RawNext;
    if page.counts.complete == Some(true) || t.pages >= MAX_PAGES {
      SteadyEnd(server, query, page, t.pages);
      NothingTallied(t);
    } else {
      var next := SteadyStep(server, query, page, t.pages);
      var more, later := PageHits(next.matches), Listed(server, query, next, t.pages + 1);
      PartsNamed(more, later);
      ReadableTally(more, t);
      TalliedConcat(more, later, t, t.pages);
      var so := Tallied(more, t).(pages := t.pages + 1);
      ExactSteady(server, query, next, so);
      TalliedConcat(later, [], Tallied(more, t), t.pages + 1);
    }
  }

  lemma {:induction false} NothingTallied(t: Tally)
    ensures Tallied([], t) == t
  {}

  /** Everything a server lists on the pages read, the first included. */
  function AllListed(server: Server, query: string, first: Data): seq<Hit> {
    PageHits(first.matches) + Listed(server, query, first, 1)
  }

  /**
   Against any server at all whose pages say whether they are the last, carry a fitting cursor and keep the total, with
   no reply lost and the hits named, well formed and different: both page loops report the same count and handle.
   */
  lemma {:induction false} LoopsAgree(server: Server, query: string, first: Data)
    requires server(0, 0) == Page(first) && Steady(server, query, first, 1)
    requires Named(AllListed(server, query, first)) && Distinct(AllListed(server, query, first))
    requires AllReadable(AllListed(server, query, first))
    ensures var c, t := Collecting(server, query, first), ExactOne(server, query, 0, NO_TALLY);
            && c.ending.Over? && t.ending.Over?
            && c.hits == AllListed(server, query, first)
            && t.occurrences == |c.hits| == FoundOf(c.hits).occurrences
            && (|c.hits| == 1 ==> t.first == Some(c.hits[0]) && FoundOf(c.hits).handle == t.first.value.handle)
  {
    hide Steady, Listed, PageHits, AllReadable, TallyRaises, Tallied, RawNext, Harvest, HarvestRaises, Named, Distinct, Collect;
    var a, b := PageHits(first.matches), Listed(server, query, first, 1);
    PartsNamed(a, b);
    ReadableHarvest([], a);
    ReadableTally(a, NO_TALLY);
    CollectSteady(server, query, first, 1, Harvest([], a));
    HarvestConcat([], a, b);
    assert [] + (a + b) == a + b;
    AllKept([], a + b);
    TalliedConcat(a, b, NO_TALLY, 1);
    var so := Tallied(a, NO_TALLY).(pages := 1);
    ExactSteady(server, query, first, so);
    TalliedConcat(b, [], Tallied(a, NO_TALLY), 1);
    AllTallied(a + b);
  }

  lemma {:induction false} AllTallied(hits: seq<Hit>)
    ensures var t := Tallied(hits, NO_TALLY);
            t.occurrences == |hits| && t.ending.Over? && (hits != [] ==> t.first == Some(hits[0]))
  {}

  lemma {:induction false} AllKept(kept: seq<Hit>, hits: seq<Hit>)
    requires Distinct(kept + hits)
    ensures Harvest(kept, hits) == kept + hits
    decreases |hits|
  {
    if hits != [] {
      var all := kept + hits;
      assert all[|kept|] == hits[0];
      forall i | 0 <= i < |kept| ensures hits[0].handle != "" ==> kept[i].handle != hits[0].handle {
        assert all[i] == kept[i];
      }
      assert (kept + [hits[0]]) + hits[1..] == all;
      AllKept(kept + [hits[0]], hits[1..]);
    }
  }

  /** In particular against an honest server. */
  lemma {:induction false} HonestLoopsAgree(server: Server, blocks: seq<Match>, query: string, total: Option<int>, cursor: bool)
    requires Honest(server, blocks, query, total, cursor)
    requires Named(Reachable(blocks)) && Distinct(Reachable(blocks)) && AllReadable(Reachable(blocks))
    ensures var c := Collecting(server, query, HonestPage(blocks, query, total, cursor, 0));
            var t := ExactOne(server, query, 0, NO_TALLY);
            && t.ending.Over? && t.occurrences == |c.hits| == |Reachable(blocks)|
            && (|c.hits| == 1 ==> t.first == Some(c.hits[0]))
  {
    hide HonestPage, Reachable, Collecting, ExactOne, Steady, Listed, PageHits, Named, Distinct, AllReadable;
    HonestAll(server, blocks, query, total, cursor);
    LoopsAgree(server, query, HonestPage(blocks, query, total, cursor, 0));
  }
}
