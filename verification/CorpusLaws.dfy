/** What a freeze leaves in the archive, told by file names and by the fields of its two records. */
module CorpusLaws {
  import opened Sequences
  import opened Sorting
  import opened Packages
  import opened Corpus
  import opened CorpusVerify
  import opened ArchiveLaws
  import opened ArchiveRuns

  // ----- names -----

  lemma {:induction false} NamesAre(u: Setup, sha: string, path: string)
    ensures Dest(u, sha) == u.dir + "/originals/" + sha + ".docx" && SourcePath(sha) == "originals/" + sha + ".docx"
    ensures ManifestPath(u) == u.dir + "/" + u.name && PrivatePath(u) == u.dir + "/provenance-private.json"
    ensures TmpOf(u, path) == path + ".tmp-" + u.pid
  {
    var front := SUBDIR + SLASH;
    assert front == "originals/" && SLASH + front == "/originals/";
    assert SourcePath(sha) == front + (sha + SUFFIX) == front + sha + SUFFIX;
    assert Dest(u, sha) == u.dir + SLASH + (front + (sha + SUFFIX)) == u.dir + (SLASH + front) + sha + SUFFIX;
    assert TmpOf(u, path) == path + (TMP + u.pid) == path + TMP + u.pid;
  }

  // ----- the order of the documents -----

  /** Code by code: equal, or shorter, or smaller where they first differ. */
  ghost predicate Precedes(a: string, b: string) {
    exists k: nat :: k <= |a| && k <= |b| && a[..k] == b[..k] && (k == |a| || (k < |b| && a[k] as int < b[k] as int))
  }

  lemma {:induction false} BelowPrecedes(a: string, b: string)
    ensures Below(a, b) <==> Precedes(a, b)
  {
    if a == "" {
      assert a[..0] == b[..0];
    } else if b != "" {
      BelowPrecedes(a[1..], b[1..]);
      if a[0] == b[0] {
        if k: nat :| k <= |a[1..]| && k <= |b[1..]| && a[1..][..k] == b[1..][..k]
                     && (k == |a[1..]| || (k < |b[1..]| && a[1..][k] as int < b[1..][k] as int)) {
          assert a[..k + 1] == [a[0]] + a[1..][..k] && b[..k + 1] == [b[0]] + b[1..][..k];
        }
        if k: nat :| k <= |a| && k <= |b| && a[..k] == b[..k] && (k == |a| || (k < |b| && a[k] as int < b[k] as int)) {
          assert k > 0;
          assert a[1..][..k - 1] == a[..k][1..] && b[1..][..k - 1] == b[..k][1..];
        }
      } else {
        assert a[..0] == b[..0];
        NothingShared(a, b);
      }
    }
  }

  lemma {:induction false} NothingShared(a: string, b: string)
    requires a != "" && b != "" && a[0] != b[0]
    ensures forall k: nat :: 0 < k <= |a| && k <= |b| ==> a[..k] != b[..k]
  {
    forall k: nat | 0 < k <= |a| && k <= |b| ensures a[..k] != b[..k] {
      assert a[..k][0] == a[0] && b[..k][0] == b[0];
    }
  }

  // ----- the records -----

  /** A manifest entry for a hash: its id, path, size and the features of the archived bytes. */
  ghost predicate Describes(u: Setup, fs: Files, d: Document, e: Entry) {
    && e.sha.Some? && e.bytes.Some?
    && d.sha == e.sha.value && d.id == "doc-" + d.sha && d.sourcePath == "originals/" + d.sha + ".docx"
    && d.size == e.bytes.value
    && var at := u.dir + "/" + d.sourcePath;
       at in fs && |fs[at]| == d.size && u.hash(fs[at]) == d.sha && d.features == u.extract(fs[at])
  }

  /** An alias: where the original of an entry was, and what the inventory called it. */
  ghost predicate Recalls(a: Alias, e: Entry) {
    e.sha.Some? && e.bytes.Some? && e.path.Some?
    && a.snapshotId == e.id && a.path == e.path.value && a.sha == e.sha.value && a.size == e.bytes.value
  }

  ghost predicate DescribesOneOf(u: Setup, fs: Files, d: Document, entries: seq<Entry>) {
    exists e :: e in entries && Describes(u, fs, d, e)
  }

  lemma {:induction false} OneOfThem(u: Setup, fs: Files, d: Document, entries: seq<Entry>, e: Entry)
    requires e in entries && Describes(u, fs, d, e)
    ensures DescribesOneOf(u, fs, d, entries)
  {
    hide Describes;
  }

  /** The manifest lists the entries in the order of their hashes, each once. */
  ghost predicate Lists(u: Setup, inv: Inventory, fs: Files, docs: seq<Document>) {
    && |docs| == |inv.entries|
    && (forall k :: 0 <= k < |docs| ==> DescribesOneOf(u, fs, docs[k], inv.entries))
    && (forall e :: e in inv.entries ==> exists k :: 0 <= k < |docs| && Describes(u, fs, docs[k], e))
    && forall j, k :: 0 <= j < k < |docs| ==> docs[j].sha != docs[k].sha && Precedes(docs[j].sha, docs[k].sha)
  }

  ghost predicate Remembers(inv: Inventory, aliases: map<string, Alias>) {
    && (forall e :: e in inv.entries ==>
          e.sha.Some? && "doc-" + e.sha.value in aliases && Recalls(aliases["doc-" + e.sha.value], e))
    && forall id :: id in aliases ==> exists e :: e in inv.entries && e.sha.Some? && id == "doc-" + e.sha.value
  }

  lemma {:induction false} AliasesAre(table: map<string, Entry>, shas: seq<string>, n: nat)
    requires n <= |shas| && (forall sha :: sha in shas ==> sha in table) && Distinct(shas)
    requires forall k :: 0 <= k < n ==> table[shas[k]].bytes.Some? && table[shas[k]].path.Some?
    ensures forall k :: 0 <= k < n ==>
              DOC + shas[k] in Aliases(table, shas, n) && Aliases(table, shas, n)[DOC + shas[k]] == AliasOf(shas[k], table[shas[k]])
    ensures forall id :: id in Aliases(table, shas, n) ==> exists k :: 0 <= k < n && id == DOC + shas[k]
  {
    hide DOC, AliasOf;
    if n > 0 {
      AliasesAre(table, shas, n - 1);
      forall k | 0 <= k < n - 1 ensures DOC + shas[k] != DOC + shas[n - 1] {
        SameAfterPrefix(DOC, shas[k], shas[n - 1]);
      }
    }
  }

  /**
   What a freeze that goes through has recorded: in the manifest the fixed names, the pinned count, the snapshot's hash
   and the documents; in the private record what each document was called and where it was.
   */
  lemma {:induction false} RecordsExactly(u: Setup, inv: Inventory, expected: int, fs: Files) returns (p: Private)
    requires Sane(u) && !Temporary(u, ManifestPath(u)) && Freeze(u, Some(inv), expected, fs).manifest.Some?
    ensures var r := Freeze(u, Some(inv), expected, fs); var m := r.manifest.value;
            && m.schema == "real-docx-corpus-manifest-1" && m.corpusId == "real-docx-corpus-v1"
            && m.count == expected == |m.documents| && m.snapshot == inv.snapshot
            && Lists(u, inv, r.files, m.documents)
            && u.dir + "/" + u.name in r.files && r.files[u.dir + "/" + u.name] == u.canon(m)
            && u.dir + "/provenance-private.json" in r.files
            && r.files[u.dir + "/provenance-private.json"] == u.canonPrivate(p)
            && p.snapshot == inv.snapshot && Remembers(inv, p.aliases)
  {
    hide Sane, Temporary, Freeze, Held, Listings, Aliases, Dest, Index, Lists, Remembers;
    FreezeCompletes(u, inv, expected, fs);
    var r := Freeze(u, Some(inv), expected, fs);
    var table := Index(inv.entries).table;
    SortedMembers(table.Keys);
    DistinctSorted(table.Keys);
    SortedSize(table.Keys);
    IndexFacts(inv.entries);
    var shas := Sorted(table.Keys);
    p := Private(inv.snapshot, Aliases(table, shas, |shas|));
    NamesAre(u, "", "");
    ListsThem(u, inv, r.files, table, shas);
    RemembersThem(u, inv, r.files, table, shas);
  }

  lemma {:induction false} HeldDescribes(u: Setup, fs: Files, sha: string, e: Entry)
    requires Held(u, fs, sha, e) && e.sha == Some(sha)
    ensures Describes(u, fs, Listing(u, fs, sha, e), e)
  {
    hide Temporary;
    NamesAre(u, sha, "");
    HeldListing(u, fs, sha, e);
    var d := Listing(u, fs, sha, e);
    assert u.dir + "/" + ("originals/" + sha + ".docx") == u.dir + "/originals/" + sha + ".docx";
    assert DOC + sha == "doc-" + sha;
  }

  lemma {:induction false} ListsThem(u: Setup, inv: Inventory, fs: Files, table: map<string, Entry>, shas: seq<string>)
    requires (forall sha :: sha in shas <==> sha in table) && Distinct(shas) && |shas| == |inv.entries|
    requires forall i, j :: 0 <= i < j < |shas| ==> Below(shas[i], shas[j])
    requires AllHeld(u, fs, table, shas, |shas|)
    requires forall sha :: sha in table ==> table[sha] in inv.entries && table[sha].sha == Some(sha)
    requires forall e :: e in inv.entries ==> e.sha.Some? && e.sha.value in table && table[e.sha.value] == e
    ensures Lists(u, inv, fs, Listings(u, fs, table, shas, |shas|))
  {
    hide Held, Describes, Below, Listing, Precedes, DescribesOneOf;
    var docs := Listings(u, fs, table, shas, |shas|);
    forall k | 0 <= k < |docs| ensures Describes(u, fs, docs[k], table[shas[k]]) && docs[k].sha == shas[k] {
      HeldDescribes(u, fs, shas[k], table[shas[k]]);
      ListingNames(u, fs, shas[k], table[shas[k]]);
    }
    forall k | 0 <= k < |docs| ensures DescribesOneOf(u, fs, docs[k], inv.entries) {
      OneOfThem(u, fs, docs[k], inv.entries, table[shas[k]]);
    }
    forall j, k | 0 <= j < k < |docs| ensures docs[j].sha != docs[k].sha && Precedes(docs[j].sha, docs[k].sha) {
      BelowPrecedes(shas[j], shas[k]);
    }
    forall e | e in inv.entries ensures exists k :: 0 <= k < |docs| && Describes(u, fs, docs[k], e) {
      var k :| 0 <= k < |shas| && shas[k] == e.sha.value;
      assert Describes(u, fs, docs[k], e);
    }
  }

  lemma {:induction false} RemembersThem(u: Setup, inv: Inventory, fs: Files, table: map<string, Entry>, shas: seq<string>)
    requires (forall sha :: sha in shas <==> sha in table) && Distinct(shas) && AllHeld(u, fs, table, shas, |shas|)
    requires forall sha :: sha in table ==> table[sha] in inv.entries && table[sha].sha == Some(sha)
    requires forall e :: e in inv.entries ==> e.sha.Some? && e.sha.value in table && table[e.sha.value] == e
    ensures Remembers(inv, Aliases(table, shas, |shas|))
  {
    hide Aliases, Dest, Temporary;
    forall k | 0 <= k < |shas| ensures table[shas[k]].bytes.Some? && table[shas[k]].path.Some? {
      assert Held(u, fs, shas[k], table[shas[k]]);
    }
    AliasesAre(table, shas, |shas|);
    var aliases := Aliases(table, shas, |shas|);
    forall e | e in inv.entries ensures "doc-" + e.sha.value in aliases && Recalls(aliases["doc-" + e.sha.value], e) {
      var k :| 0 <= k < |shas| && shas[k] == e.sha.value;
      assert DOC + shas[k] in aliases;
    }
    forall id | id in aliases ensures exists e :: e in inv.entries && e.sha.Some? && id == "doc-" + e.sha.value {
      var k :| 0 <= k < |shas| && id == DOC + shas[k];
      assert table[shas[k]] in inv.entries;
    }
  }

  // ----- what a verification without problems has read -----

  const FEATURES: seq<string> := ["tables", "revisions", "sdt", "opaque_candidates", "media", "parse_error"]

  /** It has read a manifest with the fixed names, whose documents have ids and paths by their hash and all six features. */
  lemma {:induction false} VerifiedFields(u: Setup, fs: Files, raw: seq<byte>, base: string, expected: Option<int>)
    requires PlainHash(u.hash) && Problems(u, fs, raw, base, expected) == []
    ensures u.parse(raw).Some?
    ensures var m := u.parse(raw).value;
            && m.schema == "real-docx-corpus-manifest-1" && m.corpusId == "real-docx-corpus-v1"
            && forall d :: d in m.documents ==>
                 && d.id == "doc-" + d.sha && d.sourcePath == "originals/" + d.sha + ".docx"
                 && (forall k :: k in FEATURES ==> k in d.features)
                 && var at := base + "/originals/" + d.sha + ".docx"; at in fs && |fs[at]| == d.size && u.hash(fs[at]) == d.sha
  {
    hide Problems, FEATURES, SourcePath;
    NoProblemsMeansFaithful(u, fs, raw, base, expected);
    var m := u.parse(raw).value;
    forall d | d in m.documents
      ensures d.id == "doc-" + d.sha && d.sourcePath == "originals/" + d.sha + ".docx" && (forall k :: k in FEATURES ==> k in d.features)
      ensures var at := base + "/originals/" + d.sha + ".docx"; at in fs && |fs[at]| == d.size && u.hash(fs[at]) == d.sha
    {
      NamesAre(u.(dir := base), d.sha, "");
      FeatureNames();
    }
  }

  lemma {:induction false} FeatureNames()
    ensures forall k :: k in FEATURES <==> k in FEATURE_KEYS
  {}

  // ----- what each listed problem says -----

  /** What is wrong with the k-th entry itself when the problem is listed for it. */
  ghost predicate EntryIsWrong(docs: seq<Document>, k: nat, p: Problem)
    requires k < |docs|
  {
    var d := docs[k];
    match p
    case UnstableId(i) => i == k && d.id != "doc-" + d.sha
    case DuplicateSha(i) => i == k && exists j :: 0 <= j < k && docs[j].sha == d.sha
    case DuplicateId(i) => i == k && exists j :: 0 <= j < k && docs[j].id == d.id
    case PathDrift(i) => i == k && d.sourcePath != "originals/" + d.sha + ".docx"
    case FeatureMissing(i, key) => i == k && key in FEATURES && key !in d.features
    case _ => false
  }

  /** What is wrong with the file of the k-th entry. */
  ghost predicate FileIsWrong(fs: Files, hash: Digest, base: string, d: Document, k: nat, p: Problem) {
    var at := Locate(base, d.sourcePath);
    match p
    case Traversing(i) => i == k && at.None?
    case FileMissing(i) => i == k && at.Some? && at.value !in fs
    case ArchivedSize(i) => i == k && at.Some? && at.value in fs && |fs[at.value]| != d.size
    case ArchivedHash(i) => i == k && at.Some? && at.value in fs && |fs[at.value]| == d.size && hash(fs[at.value]) != d.sha
    case _ => false
  }

  lemma {:induction false} FeatureExactly(features: Features, keys: seq<string>, k: nat, p: Problem)
    ensures p in FeatureProblems(features, keys, k) <==>
            p.FeatureMissing? && p.i == k && p.key in keys && p.key !in features
  {
    if keys != [] {
      FeatureExactly(features, keys[..|keys| - 1], k, p);
      assert keys == keys[..|keys| - 1] + [keys[|keys| - 1]];
    }
  }

  lemma {:induction false} EntryExactly(docs: seq<Document>, k: nat, p: Problem)
    requires k < |docs|
    ensures p in EntryProblems(docs, k) <==> EntryIsWrong(docs, k, p)
  {
    hide SourcePath, FEATURE_KEYS, FEATURES;
    FeatureExactly(docs[k].features, FEATURE_KEYS, k, p);
    FeatureNames();
    NamesAre(Setup("", "", "", _ => "", _ => map[], _ => [], _ => [], _ => None), docs[k].sha, "");
    assert docs[k].sha in ShasBefore(docs, k) <==> exists j :: 0 <= j < k && docs[j].sha == docs[k].sha;
    assert docs[k].id in IdsBefore(docs, k) <==> exists j :: 0 <= j < k && docs[j].id == docs[k].id;
  }

  lemma {:induction false} StructureExactly(docs: seq<Document>, n: nat, p: Problem)
    requires n <= |docs|
    ensures p in StructureProblems(docs, n) <==> exists k :: 0 <= k < n && EntryIsWrong(docs, k, p)
  {
    hide EntryProblems, EntryIsWrong;
    if n > 0 {
      StructureExactly(docs, n - 1, p);
      EntryExactly(docs, n - 1, p);
    }
  }

  lemma {:induction false} ArchiveExactly(fs: Files, hash: Digest, base: string, docs: seq<Document>, n: nat, p: Problem)
    requires n <= |docs|
    ensures p in ArchiveProblems(fs, hash, base, docs, n) <==> exists k :: 0 <= k < n && FileIsWrong(fs, hash, base, docs[k], k, p)
  {
    hide Locate;
    if n > 0 {
      ArchiveExactly(fs, hash, base, docs, n - 1, p);
    }
  }

  /** A problem is listed exactly when it is there. */
  lemma {:induction false} ListedExactly(u: Setup, fs: Files, raw: seq<byte>, base: string, expected: Option<int>, p: Problem)
    ensures var readable := u.parse(raw).Some? && u.parse(raw).value.schema == "real-docx-corpus-manifest-1"
                            && u.parse(raw).value.corpusId == "real-docx-corpus-v1";
            p in Problems(u, fs, raw, base, expected) <==>
            if !readable then p == BadManifest
            else
              var m := u.parse(raw).value;
              var docs := m.documents;
              match p
              case BadManifest => false
              case CountDrift => m.count != |docs|
              case UnexpectedCount => expected.Some? && m.count != expected.value
              case _ =>
                (exists k :: 0 <= k < |docs| && EntryIsWrong(docs, k, p))
                || exists k :: 0 <= k < |docs| && FileIsWrong(fs, u.hash, base, docs[k], k, p)
  {
    hide StructureProblems, ArchiveProblems, Locate, FEATURES;
    if u.parse(raw).Some? {
      var docs := u.parse(raw).value.documents;
      StructureExactly(docs, |docs|, p);
      ArchiveExactly(fs, u.hash, base, docs, |docs|, p);
    }
  }

  // ----- why an entry is refused -----

  /** The first thing wrong with an entry at its turn, in the files as they are then. */
  ghost predicate Fault(u: Setup, fs: Files, sha: string, e: Entry, why: Error) {
    var at := u.dir + "/originals/" + sha + ".docx";
    match why
    case BadEntry => e.bytes.None? || e.path.None?
    case SourceMissing => e.bytes.Some? && e.path.Some? && e.path.value !in fs
    case SizeDrift => e.bytes.Some? && e.path.Some? && e.path.value in fs && |fs[e.path.value]| != e.bytes.value
    case HashDrift =>
      && e.bytes.Some? && e.path.Some? && e.path.value in fs && |fs[e.path.value]| == e.bytes.value
      && u.hash(fs[e.path.value]) != sha
    case ArchivedDiffers =>
      && e.bytes.Some? && e.path.Some? && e.path.value in fs && |fs[e.path.value]| == e.bytes.value
      && u.hash(fs[e.path.value]) == sha && at in fs && u.hash(fs[at]) != sha
    case SameFile =>
      && e.bytes.Some? && e.path.Some? && e.path.value in fs && |fs[e.path.value]| == e.bytes.value
      && u.hash(fs[e.path.value]) == sha && at !in fs && e.path.value == at + ".tmp-" + u.pid
    case _ => false
  }

  lemma {:induction false} RefusedFor(u: Setup, fs: Files, sha: string, e: Entry, why: Error)
    ensures Check(u, fs, sha, e) == Some(why) <==> Fault(u, fs, sha, e, why)
  {
    hide Dest, TmpOf;
    NamesAre(u, sha, Dest(u, sha));
  }

  // ----- where a source path leads -----

  /** The path is cut at every `/`. */
  lemma {:induction false} CutAtSlashes(piece: string, rest: string)
    requires '/' !in piece
    ensures Split(piece) == [piece] && Split(piece + "/" + rest) == [piece] + Split(rest)
  {
    if piece == "" {
      assert piece + "/" + rest == "/" + rest && ("/" + rest)[1..] == rest;
    } else {
      CutAtSlashes(piece[1..], rest);
      assert (piece + "/" + rest)[1..] == piece[1..] + "/" + rest;
      assert [piece[0]] + piece[1..] == piece;
    }
  }

  /** One step down for every piece but the empty ones and the dots. */
  function Descend(base: string, pieces: seq<string>): string
    decreases pieces
  {
    if pieces == [] then base
    else if pieces[0] == "" || pieces[0] == "." then Descend(base, pieces[1..])
    else Descend(base + "/" + pieces[0], pieces[1..])
  }

  lemma {:induction false} JoinsDescending(base: string, pieces: seq<string>)
    ensures Joined(base, WithoutEmpty(pieces)) == Descend(base, pieces)
    ensures ".." in WithoutEmpty(pieces) <==> ".." in pieces
    decreases pieces
  {
    if pieces != [] {
      JoinsDescending(base, pieces[1..]);
      JoinsDescending(base + "/" + pieces[0], pieces[1..]);
      var rest := WithoutEmpty(pieces[1..]);
      assert ([pieces[0]] + rest)[0] == pieces[0] && ([pieces[0]] + rest)[1..] == rest && [] + rest == rest;
      assert SLASH == "/" && Under(base, pieces[0]) == base + "/" + pieces[0];
    }
  }

  /** A source is refused exactly when it is empty, absolute or climbs; otherwise it descends from the directory. */
  lemma {:induction false} ResolvesExactly(dir: string, path: string)
    ensures ResolveSource(dir, path).None? <==> path == "" || path[0] == '/' || ".." in Split(path)
    ensures ResolveSource(dir, path).Some? ==> ResolveSource(dir, path).value == Descend(dir, Split(path))
  {
    JoinsDescending(dir, Split(path));
  }

  // ----- the same on Windows -----

  /** The same ASCII letter in either case, or the same character. */
  predicate SameCode(a: int, b: int) {
    a == b || (97 <= a <= 122 && b == a - 32) || (97 <= b <= 122 && a == b - 32)
  }

  /** A piece leaves the directory at once when it begins with a backslash, or names another drive or a drive's root. */
  lemma {:induction false} LeavesExactly(drive: char, piece: string)
    ensures !Replaces(Posix, piece) && HostSteps(Posix, piece) == [piece]
    ensures Replaces(Windows(drive), piece) <==>
            if |piece| >= 2 && piece[1] as int == 58
            then !SameCode(piece[0] as int, drive as int) || (|piece| > 2 && piece[2] as int == 92)
            else piece != "" && piece[0] as int == 92
  {}

  /** Otherwise it steps through its parts between backslashes, behind a drive's name if it has one. */
  lemma {:induction false} StepsExactly(drive: char, part: string, rest: string)
    requires '\\' !in part && !(|part| >= 2 && part[1] == ':')
    requires |part| >= 2
    ensures Unslash(part) == [part] && Unslash(part + "\\" + rest) == [part] + Unslash(rest)
    ensures HostSteps(Windows(drive), part + "\\" + rest) == WithoutEmpty([part] + Unslash(rest))
    ensures HostSteps(Windows(drive), [drive] + ":" + part) == WithoutEmpty([part])
  {
    CutAtBackslashes(part, rest);
    var named := [drive] + ":" + part;
    assert named[1] == ':' && named[2..] == part;
    var s := part + "\\" + rest;
    assert s[1] == part[1];
  }

  lemma {:induction false} CutAtBackslashes(part: string, rest: string)
    requires '\\' !in part
    ensures Unslash(part) == [part] && Unslash(part + "\\" + rest) == [part] + Unslash(rest)
  {
    if part == "" {
      assert part + "\\" + rest == "\\" + rest && ("\\" + rest)[1..] == rest;
    } else {
      CutAtBackslashes(part[1..], rest);
      assert (part + "\\" + rest)[1..] == part[1..] + "\\" + rest;
      assert [part[0]] + part[1..] == part;
    }
  }
}
