/** When a freeze goes through, told from the inventory and the files there were before it. */
module ArchiveRuns {
  import opened Sequences
  import opened Sorting
  import opened Corpus
  import opened ArchiveLaws

  // ----- the inventory's hashes -----

  /** Every entry has a hash, and no two have the same. */
  ghost predicate DistinctHashes(entries: seq<Entry>) {
    && (forall e :: e in entries ==> e.sha.Some?)
    && forall i, j :: 0 <= i < j < |entries| ==> entries[i].sha != entries[j].sha
  }

  lemma {:induction false} IndexedExactly(entries: seq<Entry>)
    ensures Index(entries).Table? <==> DistinctHashes(entries)
  {
    hide Index;
    if Index(entries).Table? {
      IndexFacts(entries);
      forall i, j | 0 <= i < j < |entries| ensures entries[i].sha != entries[j].sha {
        assert entries[i] in entries && entries[j] in entries;
        if entries[i] == entries[j] {
          TwiceThere(entries, i, j);
          IndexedOnce(entries, entries[i]);
        }
      }
    } else if DistinctHashes(entries) {
      IndexesIf(entries);
    }
  }

  /**
   An inventory with a missing or repeated hash is refused before anything is written, and so is every permutation of
   it; which of the two reasons is given depends on the order.
   */
  lemma {:induction false} RefusedInAnyOrder(u: Setup, a: Inventory, b: Inventory, expected: int, fs: Files)
    requires multiset(a.entries) == multiset(b.entries) && !DistinctHashes(a.entries)
    ensures var r, s := Freeze(u, Some(a), expected, fs), Freeze(u, Some(b), expected, fs);
            && r.files == fs && r.manifest.None? && s.files == fs && s.manifest.None?
            && (r.error == Some(WrongCount) <==> s.error == Some(WrongCount))
  {
    hide Index, AllArchived, Finish;
    IndexedExactly(a.entries);
    if Index(b.entries).Table? {
      PermutedIndex(b.entries, a.entries);
    }
    assert |a.entries| == |multiset(a.entries)| == |b.entries|;
    NotAboutCount(a.entries);
    NotAboutCount(b.entries);
  }

  lemma {:induction false} NotAboutCount(entries: seq<Entry>)
    ensures Index(entries).Unindexed? ==> Index(entries).why == MissingSha || Index(entries).why == DuplicateEntry
  {
    if entries != [] {
      NotAboutCount(entries[..|entries| - 1]);
    }
  }

  // ----- the files at an entry's turn -----

  /** The temporary file of an entry that had to be copied. */
  ghost predicate Removed(u: Setup, fs: Files, shas: seq<string>, n: nat, path: string)
    requires n <= |shas|
  {
    exists i :: 0 <= i < n && Dest(u, shas[i]) !in fs && path == TmpOf(u, Dest(u, shas[i]))
  }

  ghost predicate ArchivedBy(u: Setup, shas: seq<string>, n: nat, path: string)
    requires n <= |shas|
  {
    exists i :: 0 <= i < n && path == Dest(u, shas[i])
  }

  /** After n entries: the archived files have their hashes, temporary ones are gone, and all others are as they were. */
  ghost predicate Reached(u: Setup, fs: Files, shas: seq<string>, n: nat, files: Files)
    requires n <= |shas|
  {
    && (forall i :: 0 <= i < n ==> Dest(u, shas[i]) in files && u.hash(files[Dest(u, shas[i])]) == shas[i])
    && (forall p :: !ArchivedBy(u, shas, n, p) ==> (p in files <==> p in fs && !Removed(u, fs, shas, n, p)))
    && (forall p :: p in files && p in fs ==> files[p] == fs[p])
  }

  lemma {:induction false} DestApart(u: Setup, a: string, b: string)
    ensures Dest(u, a) == Dest(u, b) ==> a == b
  {
    var front := u.dir + SLASH + (SUBDIR + SLASH);
    assert Dest(u, a) == front + (a + SUFFIX) && Dest(u, b) == front + (b + SUFFIX);
    SameAfterPrefix(front, a + SUFFIX, b + SUFFIX);
    if Dest(u, a) == Dest(u, b) {
      assert |a| == |b|;
      assert a == (a + SUFFIX)[..|a|] && b == (b + SUFFIX)[..|b|];
    }
  }

  ghost predicate Distinct(shas: seq<string>) {
    forall i, j :: 0 <= i < j < |shas| ==> shas[i] != shas[j]
  }

  /** The file an entry is archived as: not there yet unless it was there from the start. */
  lemma {:induction false} DestAtTurn(u: Setup, fs: Files, shas: seq<string>, n: nat, files: Files)
    requires Sane(u) && Distinct(shas) && n < |shas| && Reached(u, fs, shas, n, files)
    ensures var dest := Dest(u, shas[n]);
            && !ArchivedBy(u, shas, n, dest) && !Removed(u, fs, shas, n, dest)
            && (dest in files <==> dest in fs) && (dest in files ==> files[dest] == fs[dest])
  {
    hide Dest, TmpOf, Sane, Temporary;
    var dest := Dest(u, shas[n]);
    if ArchivedBy(u, shas, n, dest) {
      var i :| 0 <= i < n && dest == Dest(u, shas[i]);
      DestApart(u, shas[n], shas[i]);
    }
    if Removed(u, fs, shas, n, dest) {
      var i :| 0 <= i < n && Dest(u, shas[i]) !in fs && dest == TmpOf(u, Dest(u, shas[i]));
      TmpIsTemporary(u, Dest(u, shas[i]));
      DestIsNotTemporary(u, shas[n]);
    }
  }

  /**
   The test of one entry before the run: its original is there, with its size and its hash; what is archived under the
   hash already has it; and the original does not stand where an entry up to this one is written temporarily.
   */
  ghost predicate Ready(u: Setup, fs: Files, shas: seq<string>, n: nat, e: Entry)
    requires n < |shas|
  {
    && e.bytes.Some? && e.path.Some? && e.path.value in fs
    && |fs[e.path.value]| == e.bytes.value && u.hash(fs[e.path.value]) == shas[n]
    && (Dest(u, shas[n]) in fs ==> u.hash(fs[Dest(u, shas[n])]) == shas[n])
    && !Removed(u, fs, shas, n + 1, e.path.value)
  }

  lemma {:induction false} RemovedNext(u: Setup, fs: Files, shas: seq<string>, n: nat, path: string)
    requires n < |shas|
    ensures Removed(u, fs, shas, n + 1, path) <==>
            Removed(u, fs, shas, n, path) || (Dest(u, shas[n]) !in fs && path == TmpOf(u, Dest(u, shas[n])))
  {
    hide Dest, TmpOf;
  }

  /** The check at an entry's turn finds what that test finds before the run. */
  lemma {:induction false} CheckAtTurn(u: Setup, fs: Files, shas: seq<string>, n: nat, files: Files, e: Entry)
    requires Sane(u) && Distinct(shas) && n < |shas| && Reached(u, fs, shas, n, files)
    ensures Check(u, files, shas[n], e).None? <==> Ready(u, fs, shas, n, e)
  {
    hide Dest, TmpOf, Sane, Removed, ArchivedBy;
    DestAtTurn(u, fs, shas, n, files);
    if e.path.Some? {
      var path := e.path.value;
      RemovedNext(u, fs, shas, n, path);
      if ArchivedBy(u, shas, n, path) {
        WrongOriginal(u, fs, shas, n, files, path);
      }
    }
  }

  /** A file archived before has another hash, and so had what stood in its place. */
  lemma {:induction false} WrongOriginal(u: Setup, fs: Files, shas: seq<string>, n: nat, files: Files, path: string)
    requires Distinct(shas) && n < |shas| && Reached(u, fs, shas, n, files) && ArchivedBy(u, shas, n, path)
    ensures path in files && u.hash(files[path]) != shas[n]
  {
    hide Dest, TmpOf, Removed;
    var i :| 0 <= i < n && path == Dest(u, shas[i]);
  }

  lemma {:induction false} ArchivedNext(u: Setup, shas: seq<string>, n: nat, path: string)
    requires n < |shas|
    ensures ArchivedBy(u, shas, n + 1, path) <==> ArchivedBy(u, shas, n, path) || path == Dest(u, shas[n])
  {
    hide Dest;
  }

  /** One entry that passes its check. */
  lemma {:induction false} ReachNext(u: Setup, fs: Files, shas: seq<string>, n: nat, p: Progress, e: Entry)
    requires Sane(u) && Distinct(shas) && n < |shas| && Reached(u, fs, shas, n, p.files)
    requires Check(u, p.files, shas[n], e).None?
    ensures Reached(u, fs, shas, n + 1, Advance(u, p, shas[n], e).files)
  {
    hide Dest, TmpOf, Sane, Removed, ArchivedBy, DocumentOf, AliasOf, Temporary;
    DestAtTurn(u, fs, shas, n, p.files);
    var files, dest := Advance(u, p, shas[n], e).files, Dest(u, shas[n]);
    var tmp := TmpOf(u, dest);
    TmpIsTemporary(u, dest);
    forall path
      ensures ArchivedBy(u, shas, n + 1, path) <==> ArchivedBy(u, shas, n, path) || path == dest
      ensures Removed(u, fs, shas, n + 1, path) <==> Removed(u, fs, shas, n, path) || (dest !in fs && path == tmp)
    {
      ArchivedNext(u, shas, n, path);
      RemovedNext(u, fs, shas, n, path);
    }
    forall i | 0 <= i < n ensures Dest(u, shas[i]) != tmp {
      DestIsNotTemporary(u, shas[i]);
    }
  }

  ghost predicate AllReady(u: Setup, fs: Files, table: map<string, Entry>, shas: seq<string>, n: nat)
    requires n <= |shas| && forall sha :: sha in shas ==> sha in table
  {
    forall k :: 0 <= k < n ==> Ready(u, fs, shas, k, table[shas[k]])
  }

  /** No entry is refused exactly when every entry is ready before the run. */
  lemma {:induction false} ArchivedExactly(u: Setup, fs: Files, table: map<string, Entry>, shas: seq<string>, n: nat)
    requires n <= |shas| && (forall sha :: sha in shas ==> sha in table) && Sane(u) && Distinct(shas)
    ensures var p := Archived(u, fs, table, shas, n);
            && (p.error.None? <==> AllReady(u, fs, table, shas, n))
            && (p.error.None? ==> Reached(u, fs, shas, n, p.files))
  {
    hide Sane, Distinct, Reached, Ready, Check, Advance;
    if n == 0 {
      ReachedAtStart(u, fs, shas);
    } else {
      ArchivedExactly(u, fs, table, shas, n - 1);
      var p := Archived(u, fs, table, shas, n - 1);
      if p.error.None? {
        var sha := shas[n - 1];
        CheckAtTurn(u, fs, shas, n - 1, p.files, table[sha]);
        AdvanceRefuses(u, p, sha, table[sha]);
        if Check(u, p.files, sha, table[sha]).None? {
          ReachNext(u, fs, shas, n - 1, p, table[sha]);
        }
      }
    }
  }

  lemma {:induction false} ReachedAtStart(u: Setup, fs: Files, shas: seq<string>)
    ensures Reached(u, fs, shas, 0, fs)
  {}

  lemma {:induction false} AdvanceRefuses(u: Setup, p: Progress, sha: string, e: Entry)
    requires p.error.None?
    ensures Advance(u, p, sha, e).error.None? <==> Check(u, p.files, sha, e).None?
  {
    hide Check, Copied, DocumentOf;
  }

  // ----- the records -----

  /** The manifest's documents, from the originals. */
  function Planned(u: Setup, fs: Files, table: map<string, Entry>, shas: seq<string>): seq<Document>
    requires forall sha :: sha in shas ==> sha in table
  {
    seq(|shas|, k requires 0 <= k < |shas| =>
      var e := table[shas[k]];
      DocumentOf(u, if e.path.Some? && e.path.value in fs then fs[e.path.value] else [], shas[k],
                 if e.bytes.Some? then e.bytes.value else 0))
  }

  lemma {:induction false} PlannedIsListed(u: Setup, fs: Files, table: map<string, Entry>, shas: seq<string>)
    requires (forall sha :: sha in shas ==> sha in table) && Sane(u) && Distinct(shas)
    requires Archived(u, fs, table, shas, |shas|).error.None?
    ensures var p := Archived(u, fs, table, shas, |shas|);
            p.documents == Planned(u, fs, table, shas) && p.aliases == Aliases(table, shas, |shas|)
  {
    hide Archived, Distinct, Reached, Check, DocumentOf, Aliases, Dest, Removed;
    ArchivedHolds(u, fs, table, shas, |shas|);
    ArchivedExactly(u, fs, table, shas, |shas|);
    var p := Archived(u, fs, table, shas, |shas|);
    forall k | 0 <= k < |shas| ensures p.documents[k] == Planned(u, fs, table, shas)[k] {
      assert Held(u, p.files, shas[k], table[shas[k]]) && Ready(u, fs, shas, k, table[shas[k]]);
      assert p.files[Dest(u, shas[k])] == fs[table[shas[k]].path.value];
    }
  }

  /** Nothing else stands under the name a record is published under. */
  ghost predicate Unclaimed(fs: Files, path: string, data: seq<byte>) {
    path in fs ==> fs[path] == data
  }

  /** Both records can be published: they have different names, or would be the same bytes. */
  ghost predicate RecordsFit(u: Setup, fs: Files, m: Manifest, r: Private) {
    && Unclaimed(fs, ManifestPath(u), u.canon(m)) && Unclaimed(fs, PrivatePath(u), u.canonPrivate(r))
    && (u.name == PRIVATE_NAME ==> u.canon(m) == u.canonPrivate(r))
  }

  lemma {:induction false} NoRecordName(u: Setup, name: string, sha: string)
    requires SLASH[0] !in name
    ensures Under(u.dir, name) != Dest(u, sha)
  {
    SameAfterPrefix(u.dir + SLASH, name, SourcePath(sha));
    assert SourcePath(sha)[|SUBDIR|] == SLASH[0];
  }

  /** A record's path is none of the archived files' and no temporary one. */
  lemma {:induction false} RecordAtEnd(u: Setup, fs: Files, shas: seq<string>, files: Files, name: string, data: seq<byte>)
    requires Reached(u, fs, shas, |shas|, files) && SLASH[0] !in name && !Temporary(u, Under(u.dir, name))
    ensures Unclaimed(files, Under(u.dir, name), data) <==> Unclaimed(fs, Under(u.dir, name), data)
  {
    hide Temporary, TmpOf;
    var path := Under(u.dir, name);
    if ArchivedBy(u, shas, |shas|, path) {
      var i :| 0 <= i < |shas| && path == Dest(u, shas[i]);
      NoRecordName(u, name, shas[i]);
    }
    if Removed(u, fs, shas, |shas|, path) {
      var i :| 0 <= i < |shas| && path == TmpOf(u, Dest(u, shas[i]));
      TmpIsTemporary(u, Dest(u, shas[i]));
    }
  }

  lemma {:induction false} FinishExactly(u: Setup, inv: Inventory, expected: int, p: Progress)
    requires !Temporary(u, ManifestPath(u)) && !Temporary(u, PrivatePath(u))
    ensures Finish(u, inv, expected, p).manifest.Some? <==>
            RecordsFit(u, p.files, ManifestOf(inv, expected, p.documents), Private(inv.snapshot, p.aliases))
  {
    hide Temporary, TmpOf, ManifestOf, PRIVATE_NAME;
    TmpIsTemporary(u, ManifestPath(u));
    SameAfterPrefix(u.dir + SLASH, u.name, PRIVATE_NAME);
  }

  lemma {:induction false} PrivateIsRecord(u: Setup)
    requires Sane(u)
    ensures SLASH[0] !in PRIVATE_NAME && !Temporary(u, PrivatePath(u))
  {
    hide Sane, Temporary;
    var path := PrivatePath(u);
    assert path[|path| - 1] == PRIVATE_NAME[|PRIVATE_NAME| - 1] == 'n';
    NotTemporary(u, path);
  }

  // ----- the whole run -----

  /** The test of a whole run, before it. */
  ghost predicate CanFreeze(u: Setup, inv: Inventory, expected: int, fs: Files)
    requires Index(inv.entries).Table?
  {
    var table := Index(inv.entries).table;
    SortedMembers(table.Keys);
    var shas := Sorted(table.Keys);
    && AllReady(u, fs, table, shas, |shas|)
    && RecordsFit(u, fs, ManifestOf(inv, expected, Planned(u, fs, table, shas)), Private(inv.snapshot, Aliases(table, shas, |shas|)))
  }

  /**
   A freeze goes through if and only if the inventory has the expected number of entries with distinct hashes, every
   entry is ready, and nothing else stands under the names of the two records.
   */
  lemma {:induction false} GoesThroughExactly(u: Setup, inv: Inventory, expected: int, fs: Files)
    requires Sane(u) && SLASH[0] !in u.name && !Temporary(u, ManifestPath(u))
    ensures Index(inv.entries).Table? <==> DistinctHashes(inv.entries)
    ensures Freeze(u, Some(inv), expected, fs).manifest.Some? <==>
            |inv.entries| == expected && DistinctHashes(inv.entries) && CanFreeze(u, inv, expected, fs)
  {
    hide Index, Sane, Temporary, Archived, Finish, Reached, Planned, Aliases, AllReady, RecordsFit, ManifestOf, SLASH,
         DistinctHashes, Distinct, ManifestPath, PrivatePath;
    IndexedExactly(inv.entries);
    if |inv.entries| == expected && Index(inv.entries).Table? {
      var table := Index(inv.entries).table;
      SortedMembers(table.Keys);
      var shas := Sorted(table.Keys);
      DistinctSorted(table.Keys);
      ArchivedExactly(u, fs, table, shas, |shas|);
      if AllReady(u, fs, table, shas, |shas|) {
        var p := AllArchived(u, fs, table);
        PlannedIsListed(u, fs, table, shas);
        RecordsAtEnd(u, fs, shas, p.files, ManifestOf(inv, expected, p.documents), Private(inv.snapshot, p.aliases));
        PrivateIsRecord(u);
        FinishExactly(u, inv, expected, p);
      }
    }
  }

  lemma {:induction false} DistinctSorted(s: set<string>)
    ensures Distinct(Sorted(s))
  {
    SortedMembers(s);
  }

  lemma {:induction false} RecordsAtEnd(u: Setup, fs: Files, shas: seq<string>, files: Files, m: Manifest, r: Private)
    requires Sane(u) && SLASH[0] !in u.name && !Temporary(u, ManifestPath(u)) && Reached(u, fs, shas, |shas|, files)
    ensures RecordsFit(u, files, m, r) <==> RecordsFit(u, fs, m, r)
  {
    hide Sane, Temporary, Reached, SLASH, Unclaimed;
    PrivateIsRecord(u);
    RecordAtEnd(u, fs, shas, files, u.name, u.canon(m));
    RecordAtEnd(u, fs, shas, files, PRIVATE_NAME, u.canonPrivate(r));
  }
}
