/** What the archive promises: written once, frozen and verified alike, and the same whatever the inventory's order. */
module ArchiveLaws {
  import opened Sequences
  import opened Sorting
  import opened Packages
  import opened Corpus
  import opened CorpusVerify

  /** Every file of `before`, but for this process's temporary ones, is in `after` with its bytes. */
  ghost predicate Kept(u: Setup, before: Files, after: Files) {
    forall p :: p in before && !Temporary(u, p) ==> p in after && after[p] == before[p]
  }

  lemma {:induction false} TmpIsTemporary(u: Setup, path: string)
    ensures Temporary(u, TmpOf(u, path))
  {
    hide TMP;
  }

  lemma {:induction false} PlacedKeeps(u: Setup, fs: Files, path: string, data: seq<byte>)
    requires path !in fs
    ensures Kept(u, fs, Placed(u, fs, path, data))
  {
    hide Temporary, TmpOf;
    TmpIsTemporary(u, path);
  }

  lemma {:induction false} AdvanceKeeps(u: Setup, p: Progress, sha: string, e: Entry)
    ensures Kept(u, p.files, Advance(u, p, sha, e).files)
  {
    hide Temporary, TmpOf, Placed, Dest;
    if Check(u, p.files, sha, e).None? && Dest(u, sha) !in p.files {
      PlacedKeeps(u, p.files, Dest(u, sha), p.files[e.path.value]);
    }
  }

  lemma {:induction false} ArchivedKeeps(u: Setup, fs: Files, table: map<string, Entry>, shas: seq<string>, n: nat, m: nat)
    requires n <= m <= |shas| && forall sha :: sha in shas ==> sha in table
    ensures Kept(u, Archived(u, fs, table, shas, n).files, Archived(u, fs, table, shas, m).files)
    decreases m
  {
    hide Advance, Temporary;
    if n < m {
      ArchivedKeeps(u, fs, table, shas, n, m - 1);
      AdvanceKeeps(u, Archived(u, fs, table, shas, m - 1), shas[m - 1], table[shas[m - 1]]);
    }
  }

  lemma {:induction false} PublishedKeeps(u: Setup, fs: Files, path: string, data: seq<byte>)
    ensures Kept(u, fs, Published(u, fs, path, data).0)
  {
    hide Temporary, TmpOf, Placed;
    if path !in fs {
      PlacedKeeps(u, fs, path, data);
    }
  }

  lemma {:induction false} FinishKeeps(u: Setup, inv: Inventory, expected: int, p: Progress)
    ensures Kept(u, p.files, Finish(u, inv, expected, p).files)
  {
    hide Temporary, Published, ManifestOf, ManifestPath, PrivatePath;
    var m := ManifestOf(inv, expected, p.documents);
    var files := Published(u, p.files, ManifestPath(u), u.canon(m)).0;
    PublishedKeeps(u, p.files, ManifestPath(u), u.canon(m));
    PublishedKeeps(u, files, PrivatePath(u), u.canonPrivate(Private(inv.snapshot, p.aliases)));
  }

  /** However a freeze ends, every file that was there keeps its bytes. */
  lemma {:induction false} WriteOnce(u: Setup, inventory: Option<Inventory>, expected: int, fs: Files)
    ensures Kept(u, fs, Freeze(u, inventory, expected, fs).files)
  {
    hide Temporary, Finish, Archived;
    if inventory.Some? && Index(inventory.value.entries).Table? {
      var table := Index(inventory.value.entries).table;
      SortedMembers(table.Keys);
      var shas := Sorted(table.Keys);
      ArchivedStart(u, fs, table, shas);
      ArchivedKeeps(u, fs, table, shas, 0, |shas|);
      FinishKeeps(u, inventory.value, expected, AllArchived(u, fs, table));
    }
  }

  lemma {:induction false} ArchivedStart(u: Setup, fs: Files, table: map<string, Entry>, shas: seq<string>)
    requires forall sha :: sha in shas ==> sha in table
    ensures Archived(u, fs, table, shas, 0) == Progress(fs, [], map[], None)
  {}

  // ----- what has been archived -----

  ghost predicate Sane(u: Setup) {
    && PlainHash(u.hash) && CollisionFree(u.hash)
    && u.pid != [] && forall i :: 0 <= i < |u.pid| ==> '0' <= u.pid[i] <= '9'
  }

  lemma {:induction false} NotTemporary(u: Setup, path: string)
    requires Sane(u) && path != [] && !('0' <= path[|path| - 1] <= '9')
    ensures !Temporary(u, path)
  {
    hide TMP, CollisionFree;
    var end := TMP + u.pid;
    assert end[|end| - 1] == u.pid[|u.pid| - 1];
    SameLast(path, end);
  }

  lemma {:induction false} SameLast(s: string, end: string)
    requires end != [] && s != []
    ensures EndsWith(s, end) ==> s[|s| - 1] == end[|end| - 1]
  {
    if EndsWith(s, end) {
      assert s[|s| - |end|..][|end| - 1] == s[|s| - 1];
    }
  }

  lemma {:induction false} DestIsNotTemporary(u: Setup, sha: string)
    requires Sane(u)
    ensures !Temporary(u, Dest(u, sha))
  {
    hide Temporary, Sane, SLASH, SUBDIR;
    var path := Dest(u, sha);
    assert |SUFFIX| == 5 && SUFFIX[4] == 'x';
    assert path[|path| - 1] == SUFFIX[4];
    NotTemporary(u, path);
  }

  /** The entry's file is archived; and its original, unless it is a temporary file, is still there. */
  ghost predicate Held(u: Setup, fs: Files, sha: string, e: Entry) {
    && e.bytes.Some? && e.path.Some?
    && Dest(u, sha) in fs && u.hash(fs[Dest(u, sha)]) == sha && |fs[Dest(u, sha)]| == e.bytes.value
    && (!Temporary(u, e.path.value) ==> e.path.value in fs && fs[e.path.value] == fs[Dest(u, sha)])
  }

  lemma {:induction false} HeldKept(u: Setup, a: Files, b: Files, sha: string, e: Entry)
    requires Sane(u) && Held(u, a, sha, e) && Kept(u, a, b)
    ensures Held(u, b, sha, e) && b[Dest(u, sha)] == a[Dest(u, sha)]
  {
    hide Sane, Dest, Temporary;
    DestIsNotTemporary(u, sha);
  }

  lemma {:induction false} AdvanceHolds(u: Setup, p: Progress, sha: string, e: Entry)
    requires Sane(u) && Check(u, p.files, sha, e).None?
    ensures Held(u, Advance(u, p, sha, e).files, sha, e)
  {
    hide Dest, TmpOf, Temporary, PlainHash;
    AdvanceKeeps(u, p, sha, e);
  }

  /** The manifest entry of a hash, from the file archived for it. */
  function Listing(u: Setup, fs: Files, sha: string, e: Entry): Document {
    DocumentOf(u, if Dest(u, sha) in fs then fs[Dest(u, sha)] else [], sha, if e.bytes.Some? then e.bytes.value else 0)
  }

  function Listings(u: Setup, fs: Files, table: map<string, Entry>, shas: seq<string>, n: nat): (docs: seq<Document>)
    requires n <= |shas| && forall sha :: sha in shas ==> sha in table
    ensures |docs| == n
    ensures forall k :: 0 <= k < n ==> docs[k] == Listing(u, fs, shas[k], table[shas[k]])
  {
    seq(n, k requires 0 <= k < n => Listing(u, fs, shas[k], table[shas[k]]))
  }

  function Aliases(table: map<string, Entry>, shas: seq<string>, n: nat): map<string, Alias>
    requires n <= |shas| && forall sha :: sha in shas ==> sha in table
  {
    if n == 0 then map[]
    else
      var before, e := Aliases(table, shas, n - 1), table[shas[n - 1]];
      if e.bytes.None? || e.path.None? then before else before[DOC + shas[n - 1] := AliasOf(shas[n - 1], e)]
  }

  ghost predicate AllHeld(u: Setup, fs: Files, table: map<string, Entry>, shas: seq<string>, n: nat)
    requires n <= |shas| && forall sha :: sha in shas ==> sha in table
  {
    forall k :: 0 <= k < n ==> Held(u, fs, shas[k], table[shas[k]])
  }

  lemma {:induction false} AdvanceLists(u: Setup, p: Progress, sha: string, e: Entry)
    requires Check(u, p.files, sha, e).None?
    ensures e.bytes.Some? && e.path.Some?
    ensures var q := Advance(u, p, sha, e);
            && q.documents == p.documents + [Listing(u, q.files, sha, e)]
            && q.aliases == p.aliases[DOC + sha := AliasOf(sha, e)]
  {
    hide Dest, SourcePath, DOC, Placed;
  }

  /** Every entry so far is archived, and listed from its archived file. */
  ghost predicate Sound(u: Setup, p: Progress, table: map<string, Entry>, shas: seq<string>, n: nat)
    requires n <= |shas| && forall sha :: sha in shas ==> sha in table
  {
    && AllHeld(u, p.files, table, shas, n)
    && p.documents == Listings(u, p.files, table, shas, n) && p.aliases == Aliases(table, shas, n)
  }

  lemma {:induction false} AdvanceSound(u: Setup, p: Progress, table: map<string, Entry>, shas: seq<string>, n: nat)
    requires n < |shas| && (forall sha :: sha in shas ==> sha in table) && Sane(u)
    requires Sound(u, p, table, shas, n) && Check(u, p.files, shas[n], table[shas[n]]).None?
    ensures Sound(u, Advance(u, p, shas[n], table[shas[n]]), table, shas, n + 1)
  {
    hide Held, Sane, DOC, Listing, Kept, AliasOf, Check, Advance;
    var q, sha := Advance(u, p, shas[n], table[shas[n]]), shas[n];
    AdvanceHolds(u, p, sha, table[sha]);
    AdvanceKeeps(u, p, sha, table[sha]);
    AdvanceLists(u, p, sha, table[sha]);
    StillHeld(u, p.files, q.files, table, shas, n);
  }

  /** As long as nothing is refused. */
  lemma {:induction false} ArchivedHolds(u: Setup, fs: Files, table: map<string, Entry>, shas: seq<string>, n: nat)
    requires n <= |shas| && (forall sha :: sha in shas ==> sha in table) && Sane(u)
    requires Archived(u, fs, table, shas, n).error.None?
    ensures Sound(u, Archived(u, fs, table, shas, n), table, shas, n)
  {
    hide Sane, Check, AllHeld;
    if n > 0 {
      ArchivedHolds(u, fs, table, shas, n - 1);
      AdvanceSound(u, Archived(u, fs, table, shas, n - 1), table, shas, n - 1);
    } else {
      NothingHeld(u, fs, table, shas);
    }
  }

  lemma {:induction false} NothingHeld(u: Setup, fs: Files, table: map<string, Entry>, shas: seq<string>)
    requires forall sha :: sha in shas ==> sha in table
    ensures AllHeld(u, fs, table, shas, 0) && Listings(u, fs, table, shas, 0) == [] && Aliases(table, shas, 0) == map[]
  {}

  lemma {:induction false} HeldListing(u: Setup, fs: Files, sha: string, e: Entry)
    requires Held(u, fs, sha, e)
    ensures e.bytes.Some? && e.path.Some? && Dest(u, sha) in fs
    ensures Listing(u, fs, sha, e) == DocumentOf(u, fs[Dest(u, sha)], sha, e.bytes.value)
  {
    hide Dest, Temporary, DOC, SourcePath;
  }

  lemma {:induction false} StillHeld(u: Setup, a: Files, b: Files, table: map<string, Entry>, shas: seq<string>, n: nat)
    requires n <= |shas| && (forall sha :: sha in shas ==> sha in table) && Sane(u)
    requires AllHeld(u, a, table, shas, n) && Kept(u, a, b)
    ensures AllHeld(u, b, table, shas, n) && Listings(u, b, table, shas, n) == Listings(u, a, table, shas, n)
  {
    hide Held, Dest, Sane, DocumentOf, Kept;
    forall k | 0 <= k < n
      ensures Held(u, b, shas[k], table[shas[k]])
      ensures Listing(u, b, shas[k], table[shas[k]]) == Listing(u, a, shas[k], table[shas[k]])
    {
      HeldKept(u, a, b, shas[k], table[shas[k]]);
      HeldListing(u, a, shas[k], table[shas[k]]);
      HeldListing(u, b, shas[k], table[shas[k]]);
    }
  }

  // ----- freezing, then verifying -----

  /** The JSON library reads back what it writes, and every file yields the listed features. */
  ghost predicate Reads(u: Setup) {
    && (forall m :: u.parse(u.canon(m)) == Some(m))
    && (forall b, k :: k in FEATURE_KEYS ==> k in u.extract(b))
  }

  lemma {:induction false} IndexFacts(entries: seq<Entry>)
    requires Index(entries).Table?
    ensures |Index(entries).table| == |entries|
    ensures forall e :: e in entries ==> e.sha.Some? && e.sha.value in Index(entries).table && Index(entries).table[e.sha.value] == e
    ensures forall sha :: sha in Index(entries).table ==>
              Index(entries).table[sha] in entries && Index(entries).table[sha].sha == Some(sha)
  {
    if entries != [] {
      var init := entries[..|entries| - 1];
      IndexFacts(init);
      assert entries == init + [entries[|entries| - 1]];
    }
  }

  /** What a freeze that goes through has done to the files. */
  ghost predicate Complete(u: Setup, inv: Inventory, expected: int, fs: Files, m: Manifest) {
    && Index(inv.entries).Table?
    && var table := Index(inv.entries).table;
       var shas := Sorted(table.Keys);
       (forall sha :: sha in shas ==> sha in table)
       && AllHeld(u, fs, table, shas, |shas|)
       && m == ManifestOf(inv, expected, Listings(u, fs, table, shas, |shas|))
       && |shas| == expected
  }

  /** Both records of the run are in the archive. */
  ghost predicate Recorded(u: Setup, inv: Inventory, fs: Files, m: Manifest)
    requires Index(inv.entries).Table?
  {
    SortedMembers(Index(inv.entries).table.Keys);
    var table := Index(inv.entries).table;
    var shas := Sorted(table.Keys);
    && ManifestPath(u) in fs && fs[ManifestPath(u)] == u.canon(m)
    && PrivatePath(u) in fs && fs[PrivatePath(u)] == u.canonPrivate(Private(inv.snapshot, Aliases(table, shas, |shas|)))
  }

  lemma {:induction false} FinishRecords(u: Setup, inv: Inventory, expected: int, p: Progress)
    requires !Temporary(u, ManifestPath(u)) && Finish(u, inv, expected, p).manifest.Some?
    ensures var r := Finish(u, inv, expected, p);
            && r.manifest.value == ManifestOf(inv, expected, p.documents)
            && ManifestPath(u) in r.files && r.files[ManifestPath(u)] == u.canon(r.manifest.value)
            && PrivatePath(u) in r.files && r.files[PrivatePath(u)] == u.canonPrivate(Private(inv.snapshot, p.aliases))
  {
    hide Temporary, ManifestOf, ManifestPath, PrivatePath, TmpOf;
    var m := ManifestOf(inv, expected, p.documents);
    var files := Published(u, p.files, ManifestPath(u), u.canon(m)).0;
    PublishedKeeps(u, files, PrivatePath(u), u.canonPrivate(Private(inv.snapshot, p.aliases)));
  }

  lemma {:induction false} FreezeCompletes(u: Setup, inv: Inventory, expected: int, fs: Files)
    requires Sane(u) && !Temporary(u, ManifestPath(u)) && Freeze(u, Some(inv), expected, fs).manifest.Some?
    ensures var r := Freeze(u, Some(inv), expected, fs);
            Complete(u, inv, expected, r.files, r.manifest.value) && Recorded(u, inv, r.files, r.manifest.value)
  {
    hide Temporary, Finish, Archived, Held, Kept, ManifestOf, ManifestPath, PrivatePath, Sane, Listings, Aliases;
    var table := Index(inv.entries).table;
    SortedMembers(table.Keys);
    var shas := Sorted(table.Keys);
    var p := AllArchived(u, fs, table);
    ArchivedHolds(u, fs, table, shas, |shas|);
    FinishRecords(u, inv, expected, p);
    FinishKeeps(u, inv, expected, p);
    StillHeld(u, p.files, Finish(u, inv, expected, p).files, table, shas, |shas|);
    IndexFacts(inv.entries);
    SortedSize(table.Keys);
  }

  lemma {:induction false} ListingIsFaithful(u: Setup, fs: Files, sha: string, e: Entry)
    requires Held(u, fs, sha, e) && Reads(u)
    ensures WellFormed(Listing(u, fs, sha, e)) && CorpusVerify.Stored(fs, u.hash, u.dir, Listing(u, fs, sha, e))
  {
    hide FEATURE_KEYS, SourcePath, DOC, Temporary;
  }

  lemma {:induction false} CompleteIsFaithful(u: Setup, inv: Inventory, expected: int, fs: Files, m: Manifest)
    requires Complete(u, inv, expected, fs, m) && Reads(u)
    ensures Faithful(m, fs, u.hash, u.dir, Some(expected)) && Faithful(m, fs, u.hash, u.dir, None)
  {
    hide Held, Reads, SCHEMA, CORPUS_ID, WellFormed, CorpusVerify.Stored, Listing, Index;
    var table := Index(inv.entries).table;
    SortedMembers(table.Keys);
    var shas := Sorted(table.Keys);
    var docs := Listings(u, fs, table, shas, |shas|);
    forall k | 0 <= k < |docs|
      ensures WellFormed(docs[k]) && CorpusVerify.Stored(fs, u.hash, u.dir, docs[k])
      ensures docs[k].sha == shas[k] && docs[k].id == DOC + shas[k]
    {
      ListingIsFaithful(u, fs, shas[k], table[shas[k]]);
      ListingNames(u, fs, shas[k], table[shas[k]]);
    }
    forall i, j | 0 <= i < j < |docs| ensures docs[i].sha != docs[j].sha && docs[i].id != docs[j].id {
      SameAfterPrefix(DOC, shas[i], shas[j]);
    }
  }

  lemma {:induction false} ListingNames(u: Setup, fs: Files, sha: string, e: Entry)
    ensures Listing(u, fs, sha, e).sha == sha && Listing(u, fs, sha, e).id == DOC + sha
  {}

  lemma {:induction false} SameAfterPrefix(prefix: string, a: string, b: string)
    ensures prefix + a == prefix + b ==> a == b
  {
    assert (prefix + a)[|prefix|..] == a && (prefix + b)[|prefix|..] == b;
  }

  /** Freeze, then verify: no problem, with the count pinned or not. */
  lemma {:induction false} FreezeThenVerify(u: Setup, inv: Inventory, expected: int, fs: Files)
    requires Sane(u) && Reads(u) && !Temporary(u, ManifestPath(u)) && Freeze(u, Some(inv), expected, fs).manifest.Some?
    ensures var files := Freeze(u, Some(inv), expected, fs).files;
            && ManifestPath(u) in files
            && Problems(u, files, files[ManifestPath(u)], u.dir, Some(expected)) == []
            && Problems(u, files, files[ManifestPath(u)], u.dir, None) == []
  {
    hide Temporary, ManifestPath, Freeze, Problems, Faithful, Complete, FEATURE_KEYS;
    FreezeCompletes(u, inv, expected, fs);
    var r := Freeze(u, Some(inv), expected, fs);
    CompleteIsFaithful(u, inv, expected, r.files, r.manifest.value);
    NoProblemsMeansFaithful(u, r.files, r.files[ManifestPath(u)], u.dir, Some(expected));
    NoProblemsMeansFaithful(u, r.files, r.files[ManifestPath(u)], u.dir, None);
  }

  // ----- freezing again -----

  /** An entry that is archived, and whose original is still what was archived. */
  ghost predicate Unmoved(u: Setup, fs: Files, sha: string, e: Entry) {
    && e.bytes.Some? && e.path.Some?
    && Dest(u, sha) in fs && u.hash(fs[Dest(u, sha)]) == sha && |fs[Dest(u, sha)]| == e.bytes.value
    && e.path.value in fs && fs[e.path.value] == fs[Dest(u, sha)]
  }

  lemma {:induction false} AdvanceAgain(u: Setup, v: Setup, p: Progress, sha: string, e: Entry)
    requires v == u.(pid := v.pid) && Unmoved(u, p.files, sha, e)
    ensures e.bytes.Some? && e.path.Some? && Check(v, p.files, sha, e).None?
    ensures Advance(v, p, sha, e) ==
            Progress(p.files, p.documents + [Listing(u, p.files, sha, e)], p.aliases[DOC + sha := AliasOf(sha, e)], None)
  {
    hide SourcePath, DOC, Placed, TmpOf;
    assert Dest(v, sha) == Dest(u, sha);
  }

  lemma {:induction false} ArchivedAgain(u: Setup, v: Setup, fs: Files, table: map<string, Entry>, shas: seq<string>, n: nat)
    requires n <= |shas| && (forall sha :: sha in shas ==> sha in table) && v == u.(pid := v.pid)
    requires forall k :: 0 <= k < |shas| ==> Unmoved(u, fs, shas[k], table[shas[k]])
    ensures Archived(v, fs, table, shas, n) ==
            Progress(fs, Listings(u, fs, table, shas, n), Aliases(table, shas, n), None)
  {
    hide Unmoved, Check, Advance, DOC, Listing, AliasOf;
    if n > 0 {
      ArchivedAgain(u, v, fs, table, shas, n - 1);
      var p := Archived(v, fs, table, shas, n - 1);
      assert Unmoved(u, p.files, shas[n - 1], table[shas[n - 1]]);
      AdvanceAgain(u, v, p, shas[n - 1], table[shas[n - 1]]);
      ListingsNext(u, fs, table, shas, n - 1);
    }
  }

  lemma {:induction false} ListingsNext(u: Setup, fs: Files, table: map<string, Entry>, shas: seq<string>, n: nat)
    requires n < |shas| && forall sha :: sha in shas ==> sha in table
    ensures Listings(u, fs, table, shas, n + 1) == Listings(u, fs, table, shas, n) + [Listing(u, fs, shas[n], table[shas[n]])]
  {
    hide Listing;
  }

  lemma {:induction false} FinishAgain(u: Setup, v: Setup, inv: Inventory, expected: int, p: Progress, m: Manifest)
    requires v == u.(pid := v.pid) && m == ManifestOf(inv, expected, p.documents)
    requires ManifestPath(u) in p.files && p.files[ManifestPath(u)] == u.canon(m)
    requires PrivatePath(u) in p.files && p.files[PrivatePath(u)] == u.canonPrivate(Private(inv.snapshot, p.aliases))
    ensures Finish(v, inv, expected, p) == Frozen(p.files, Some(m), None)
  {
    hide Placed, ManifestOf;
  }

  /** Freezing the same inventory again, in this process or another, goes through and changes nothing. */
  lemma {:induction false} FreezeAgain(u: Setup, v: Setup, inv: Inventory, expected: int, fs: Files)
    requires Sane(u) && v == u.(pid := v.pid) && !Temporary(u, ManifestPath(u))
    requires Freeze(u, Some(inv), expected, fs).manifest.Some?
    requires forall e :: e in inv.entries && e.path.Some? ==> !Temporary(u, e.path.value)
    ensures var r := Freeze(u, Some(inv), expected, fs);
            Freeze(v, Some(inv), expected, r.files) == Frozen(r.files, r.manifest, None)
  {
    hide Temporary, Finish, Archived, Kept, ManifestOf, ManifestPath, PrivatePath, Sane, Listings, Aliases, Dest;
    FreezeCompletes(u, inv, expected, fs);
    var r := Freeze(u, Some(inv), expected, fs);
    var table := Index(inv.entries).table;
    SortedMembers(table.Keys);
    var shas := Sorted(table.Keys);
    IndexFacts(inv.entries);
    forall k | 0 <= k < |shas| ensures Unmoved(u, r.files, shas[k], table[shas[k]]) {
      assert Held(u, r.files, shas[k], table[shas[k]]);
      assert table[shas[k]] in inv.entries;
    }
    ArchivedAgain(u, v, r.files, table, shas, |shas|);
    FinishAgain(u, v, inv, expected, AllArchived(v, r.files, table), r.manifest.value);
  }

  // ----- the order of the inventory -----

  lemma {:induction false} SplitAt(entries: seq<Entry>, n: nat)
    requires n <= |entries|
    ensures multiset(entries) == multiset(entries[..n]) + multiset(entries[n..])
  {
    assert entries == entries[..n] + entries[n..];
  }

  lemma {:induction false} IndexedOnce(entries: seq<Entry>, e: Entry)
    requires Index(entries).Table?
    ensures multiset(entries)[e] <= 1
  {
    if entries != [] {
      var init, last := entries[..|entries| - 1], entries[|entries| - 1];
      IndexedOnce(init, e);
      IndexFacts(init);
      assert entries == init + [last];
    }
  }

  lemma {:induction false} IndexesIf(entries: seq<Entry>)
    requires forall e :: e in entries ==> e.sha.Some?
    requires forall i, j :: 0 <= i < j < |entries| ==> entries[i].sha != entries[j].sha
    ensures Index(entries).Table?
  {
    if entries != [] {
      var init, last := entries[..|entries| - 1], entries[|entries| - 1];
      IndexesIf(init);
      IndexFacts(init);
      forall e | e in init ensures e.sha != last.sha {
        var i :| 0 <= i < |init| && init[i] == e;
        assert entries[i] == e;
      }
    }
  }

  lemma {:induction false} SameTable(a: seq<Entry>, b: seq<Entry>)
    requires Index(a).Table? && Index(b).Table? && forall e :: e in a <==> e in b
    ensures Index(a) == Index(b)
  {
    hide Index;
    IndexFacts(a);
    IndexFacts(b);
    var s, t := Index(a).table, Index(b).table;
    forall sha ensures sha in s <==> sha in t {
      if sha in s {
        assert s[sha] in b;
      }
      if sha in t {
        assert t[sha] in a;
      }
    }
    forall sha | sha in s ensures s[sha] == t[sha] {
      assert s[sha] in b;
    }
  }

  lemma {:induction false} TwiceThere(entries: seq<Entry>, i: nat, j: nat)
    requires i < j < |entries| && entries[i] == entries[j]
    ensures multiset(entries)[entries[i]] >= 2
  {
    SplitAt(entries, j);
    assert entries[i] == entries[..j][i] && entries[..j][i] in entries[..j];
    assert entries[j] == entries[j..][0] && entries[j..][0] in entries[j..];
  }

  /** A permuted inventory is indexed as the same table. */
  lemma {:induction false} PermutedIndex(a: seq<Entry>, b: seq<Entry>)
    requires Index(a).Table? && multiset(a) == multiset(b)
    ensures Index(b) == Index(a)
  {
    hide Index;
    IndexFacts(a);
    forall e ensures e in a <==> e in b {
      assert e in multiset(a) <==> e in multiset(b);
    }
    forall i, j | 0 <= i < j < |b| ensures b[i].sha != b[j].sha {
      assert b[i] in a && b[j] in a;
      if b[i] == b[j] {
        TwiceThere(b, i, j);
        IndexedOnce(a, b[i]);
      }
    }
    IndexesIf(b);
    SameTable(a, b);
  }

  /**
   Permuting the inventory's entries changes neither what is archived nor what is returned, only which reason is given
   when hashes are missing or repeated; with another snapshot hash recorded, the manifest differs in nothing else.
   */
  lemma {:induction false} OrderDoesNotMatter(u: Setup, a: Inventory, b: Inventory, expected: int, fs: Files)
    requires multiset(a.entries) == multiset(b.entries)
    ensures var r, t := Freeze(u, Some(a), expected, fs), Freeze(u, Some(b.(snapshot := a.snapshot)), expected, fs);
            && t.files == r.files && t.manifest == r.manifest
            && (t == r || (r.files == fs && Index(a.entries).Unindexed? && Index(b.entries).Unindexed?))
    ensures var r, s := Freeze(u, Some(a), expected, fs), Freeze(u, Some(b), expected, fs);
            r.manifest.Some? && s.manifest.Some? ==>
              s.manifest.value == r.manifest.value.(snapshot := b.snapshot)
  {
    hide Index, AllArchived, Published, ManifestPath, PrivatePath, SCHEMA, CORPUS_ID;
    if Index(a.entries).Table? {
      PermutedIndex(a.entries, b.entries);
    } else if Index(b.entries).Table? {
      PermutedIndex(b.entries, a.entries);
    }
    assert |a.entries| == |multiset(a.entries)| == |b.entries|;
  }

  // ----- a name that cannot be used -----

  /** A manifest named like the private record always refuses: the second publication meets the first. */
  lemma {:induction false} SharedNameRefuses(u: Setup, inventory: Option<Inventory>, expected: int, fs: Files)
    requires u.name == PRIVATE_NAME && forall m, p :: u.canon(m) != u.canonPrivate(p)
    ensures Freeze(u, inventory, expected, fs).manifest.None?
  {
    hide AllArchived, PRIVATE_NAME, Index, TmpOf, ManifestOf;
  }
}
