/** The frozen corpus: an archive that is written once, its manifest, and the verification of both. */
module Corpus {
  import opened Sequences
  import opened Sorting
  import opened Packages

  /** Every regular file by its path. */
  type Files = map<string, seq<byte>>
  type Features = map<string, int>

  datatype Document = Document(id: string, sourcePath: string, sha: string, size: int, features: Features)

  datatype Manifest = Manifest(schema: string, corpusId: string, count: int, snapshot: string, documents: seq<Document>)

  datatype Alias = Alias(snapshotId: string, path: string, sha: string, size: int)

  datatype Private = Private(snapshot: string, aliases: map<string, Alias>)

  /** An inventory entry; a field that is missing or has the wrong type is `None`. */
  datatype Entry = Entry(sha: Option<string>, bytes: Option<int>, path: Option<string>, id: string)

  datatype Inventory = Inventory(entries: seq<Entry>, snapshot: string)

  /** Where the manifest goes, the process, and the hash, feature and JSON libraries as arbitrary functions. */
  datatype Setup = Setup(dir: string, name: string, pid: string, hash: Digest, extract: seq<byte> -> Features,
                         canon: Manifest -> seq<byte>, canonPrivate: Private -> seq<byte>,
                         parse: seq<byte> -> Option<Manifest>)

  datatype Error =
    | BadInventory | WrongCount | MissingSha | DuplicateEntry | BadEntry | SourceMissing | SizeDrift | HashDrift
    | ArchivedDiffers | SameFile | ManifestDiffers | PrivateDiffers

  const SCHEMA: string := "real-docx-corpus-manifest-1"
  const CORPUS_ID: string := "real-docx-corpus-v1"
  const PRIVATE_NAME: string := "provenance-private.json"
  const SUBDIR: string := "originals"
  const SUFFIX: string := ".docx"
  const SLASH: string := "/"
  const DOC: string := "doc-"
  const TMP: string := ".tmp-"
  const FEATURE_KEYS: seq<string> := ["tables", "revisions", "sdt", "opaque_candidates", "media", "parse_error"]

  // ----- paths -----

  function SourcePath(sha: string): string {
    SUBDIR + SLASH + (sha + SUFFIX)
  }

  function Under(dir: string, name: string): string {
    dir + SLASH + name
  }

  function Dest(u: Setup, sha: string): string {
    Under(u.dir, SourcePath(sha))
  }

  function ManifestPath(u: Setup): string {
    Under(u.dir, u.name)
  }

  function PrivatePath(u: Setup): string {
    Under(u.dir, PRIVATE_NAME)
  }

  function TmpOf(u: Setup, path: string): string {
    path + (TMP + u.pid)
  }

  predicate EndsWith(s: string, end: string) {
    |s| >= |end| && s[|s| - |end|..] == end
  }

  /** A path that only this process's unfinished writes use. */
  predicate Temporary(u: Setup, path: string) {
    EndsWith(path, TMP + u.pid)
  }

  // ----- freezing -----

  datatype Indexed = Table(table: map<string, Entry>) | Unindexed(why: Error)

  /** The entries by hash; the first entry without a hash, or with one seen before, refuses the inventory. */
  function Index(entries: seq<Entry>): Indexed {
    if entries == [] then Table(map[])
    else
      var before, e := Index(entries[..|entries| - 1]), entries[|entries| - 1];
      if before.Unindexed? then before
      else if e.sha.None? then Unindexed(MissingSha)
      else if e.sha.value in before.table then Unindexed(DuplicateEntry)
      else Table(before.table[e.sha.value := e])
  }

  /** What stops the freezing of one entry, before anything is written for it. */
  function Check(u: Setup, fs: Files, sha: string, e: Entry): Option<Error> {
    if e.bytes.None? || e.path.None? then Some(BadEntry)
    else if e.path.value !in fs then Some(SourceMissing)
    else if |fs[e.path.value]| != e.bytes.value then Some(SizeDrift)
    else if u.hash(fs[e.path.value]) != sha then Some(HashDrift)
    else if Dest(u, sha) in fs then if u.hash(fs[Dest(u, sha)]) != sha then Some(ArchivedDiffers) else None
    else if e.path.value == TmpOf(u, Dest(u, sha)) then Some(SameFile)
    else None
  }

  /** Writing `data` to `path` through a temporary file that is then moved there. */
  function Placed(u: Setup, fs: Files, path: string, data: seq<byte>): Files {
    (fs[TmpOf(u, path) := data] - {TmpOf(u, path)})[path := data]
  }

  function Copied(u: Setup, fs: Files, sha: string, data: seq<byte>): (r: Files)
    ensures Dest(u, sha) in r
  {
    if Dest(u, sha) in fs then fs else Placed(u, fs, Dest(u, sha), data)
  }

  /** The state of the archive and of the two lists while the entries are being frozen. */
  datatype Progress = Progress(files: Files, documents: seq<Document>, aliases: map<string, Alias>, error: Option<Error>)

  function DocumentOf(u: Setup, archived: seq<byte>, sha: string, size: int): Document {
    Document(DOC + sha, SourcePath(sha), sha, size, u.extract(archived))
  }

  function AliasOf(sha: string, e: Entry): Alias
    requires e.bytes.Some? && e.path.Some?
  {
    Alias(e.id, e.path.value, sha, e.bytes.value)
  }

  function Advance(u: Setup, p: Progress, sha: string, e: Entry): Progress {
    if Check(u, p.files, sha, e).Some? then p.(error := Check(u, p.files, sha, e))
    else
      var files := Copied(u, p.files, sha, p.files[e.path.value]);
      Progress(files, p.documents + [DocumentOf(u, files[Dest(u, sha)], sha, e.bytes.value)],
               p.aliases[DOC + sha := AliasOf(sha, e)], None)
  }

  /** After the first n entries, or after the first refusal among them. */
  function Archived(u: Setup, fs: Files, table: map<string, Entry>, shas: seq<string>, n: nat): Progress
    requires n <= |shas| && forall sha :: sha in shas ==> sha in table
  {
    if n == 0 then Progress(fs, [], map[], None)
    else
      var p := Archived(u, fs, table, shas, n - 1);
      if p.error.Some? then p else Advance(u, p, shas[n - 1], table[shas[n - 1]])
  }

  /** `_publish_immutable`: the files afterwards, and whether different bytes were already there. */
  function Published(u: Setup, fs: Files, path: string, data: seq<byte>): (Files, bool) {
    if path in fs then (fs, fs[path] == data) else (Placed(u, fs, path, data), true)
  }

  datatype Frozen = Frozen(files: Files, manifest: Option<Manifest>, error: Option<Error>)

  function ManifestOf(inv: Inventory, expected: int, documents: seq<Document>): Manifest {
    Manifest(SCHEMA, CORPUS_ID, expected, inv.snapshot, documents)
  }

  function Finish(u: Setup, inv: Inventory, expected: int, p: Progress): Frozen {
    var m := ManifestOf(inv, expected, p.documents);
    var (files, same) := Published(u, p.files, ManifestPath(u), u.canon(m));
    if !same then Frozen(files, None, Some(ManifestDiffers))
    else
      var (last, kept) := Published(u, files, PrivatePath(u), u.canonPrivate(Private(inv.snapshot, p.aliases)));
      if !kept then Frozen(last, None, Some(PrivateDiffers)) else Frozen(last, Some(m), None)
  }

  function AllArchived(u: Setup, fs: Files, table: map<string, Entry>): Progress {
    SortedMembers(table.Keys);
    Archived(u, fs, table, Sorted(table.Keys), |Sorted(table.Keys)|)
  }

  /** What a freeze leaves and returns. */
  function Freeze(u: Setup, inventory: Option<Inventory>, expected: int, fs: Files): Frozen {
    if inventory.None? then Frozen(fs, None, Some(BadInventory))
    else if |inventory.value.entries| != expected then Frozen(fs, None, Some(WrongCount))
    else
      var index := Index(inventory.value.entries);
      if index.Unindexed? then Frozen(fs, None, Some(index.why))
      else
        var p := AllArchived(u, fs, index.table);
        if p.error.Some? then Frozen(p.files, None, p.error) else Finish(u, inventory.value, expected, p)
  }

  lemma {:induction false} IndexPrefix(entries: seq<Entry>, n: nat)
    requires n <= |entries| && Index(entries[..n]).Unindexed?
    ensures Index(entries) == Index(entries[..n])
    decreases |entries|
  {
    if n < |entries| {
      assert entries[..|entries| - 1][..n] == entries[..n];
      IndexPrefix(entries[..|entries| - 1], n);
    } else {
      assert entries[..n] == entries;
    }
  }

  lemma {:induction false} ErrorStays(u: Setup, fs: Files, table: map<string, Entry>, shas: seq<string>, n: nat, m: nat)
    requires n <= m <= |shas| && forall sha :: sha in shas ==> sha in table
    requires Archived(u, fs, table, shas, n).error.Some?
    ensures Archived(u, fs, table, shas, m) == Archived(u, fs, table, shas, n)
  {
    hide Advance;
    if n < m {
      ErrorStays(u, fs, table, shas, n, m - 1);
    }
  }

  /** The deduplication loop; a count changed by it would be refused too, but it never changes the count. */
  method IndexEntries(entries: seq<Entry>) returns (r: Indexed)
    ensures r == Index(entries)
  {
    var bySha: map<string, Entry> := map[];
    for n := 0 to |entries|
      invariant Index(entries[..n]) == Table(bySha) && |bySha| == n
    {
      assert entries[..n + 1][..n] == entries[..n];
      var e := entries[n];
      if e.sha.None? {
        IndexPrefix(entries, n + 1);
        return Unindexed(MissingSha);
      }
      if e.sha.value in bySha {
        IndexPrefix(entries, n + 1);
        return Unindexed(DuplicateEntry);
      }
      bySha := bySha[e.sha.value := e];
    }
    assert entries[..|entries|] == entries;
    if |bySha| != |entries| {
      assert false;
    }
    r := Table(bySha);
  }

  class Archive {
    var files: Files

    constructor (onDisk: Files)
      ensures files == onDisk
    {
      files := onDisk;
    }

    /** `_publish_immutable` */
    method PublishImmutable(u: Setup, path: string, data: seq<byte>) returns (ok: bool)
      modifies this
      ensures (files, ok) == Published(u, old(files), path, data)
    {
      if path in files {
        return files[path] == data;
      }
      var tmp := TmpOf(u, path);
      files := files[tmp := data];
      files := (files - {tmp})[path := files[tmp]];
      ok := true;
    }

    /** One round of the loop over the sorted hashes. */
    method FreezeEntry(u: Setup, sha: string, e: Entry, documents: seq<Document>, aliases: map<string, Alias>)
      returns (docs: seq<Document>, names: map<string, Alias>, error: Option<Error>)
      modifies this
      ensures Progress(files, docs, names, error) == Advance(u, Progress(old(files), documents, aliases, None), sha, e)
    {
      hide Dest;
      docs, names, error := documents, aliases, None;
      if e.bytes.None? || e.path.None? {
        return docs, names, Some(BadEntry);
      }
      var src := e.path.value;
      if src !in files {
        return docs, names, Some(SourceMissing);
      }
      if |files[src]| != e.bytes.value {
        return docs, names, Some(SizeDrift);
      }
      if u.hash(files[src]) != sha {
        return docs, names, Some(HashDrift);
      }
      var dest := Dest(u, sha);
      if dest in files {
        if u.hash(files[dest]) != sha {
          return docs, names, Some(ArchivedDiffers);
        }
      } else {
        var tmp := TmpOf(u, dest);
        if src == tmp {
          return docs, names, Some(SameFile);
        }
        files := files[tmp := files[src]];
        files := (files - {tmp})[dest := files[tmp]];
      }
      docs := docs + [DocumentOf(u, files[dest], sha, e.bytes.value)];
      names := names[DOC + sha := AliasOf(sha, e)];
    }

    /** `freeze_inventory` */
    method FreezeInventory(u: Setup, inventory: Option<Inventory>, expected: int)
      returns (manifest: Option<Manifest>, error: Option<Error>)
      modifies this
      ensures Frozen(files, manifest, error) == Freeze(u, inventory, expected, old(files))
    {
      hide Advance, Published, Sorted, SCHEMA, CORPUS_ID, PRIVATE_NAME;
      if inventory.None? {
        return None, Some(BadInventory);
      }
      var entries := inventory.value.entries;
      if |entries| != expected {
        return None, Some(WrongCount);
      }
      var index := IndexEntries(entries);
      if index.Unindexed? {
        return None, Some(index.why);
      }
      var bySha := index.table;
      SortedMembers(bySha.Keys);
      var shas := Sorted(bySha.Keys);
      var documents: seq<Document>, aliases: map<string, Alias> := [], map[];
      for n := 0 to |shas|
        invariant Archived(u, old(files), bySha, shas, n) == Progress(files, documents, aliases, None)
      {
        documents, aliases, error := FreezeEntry(u, shas[n], bySha[shas[n]], documents, aliases);
        if error.Some? {
          ErrorStays(u, old(files), bySha, shas, n + 1, |shas|);
          return None, error;
        }
      }
      var m := ManifestOf(inventory.value, expected, documents);
      var same := PublishImmutable(u, ManifestPath(u), u.canon(m));
      if !same {
        return None, Some(ManifestDiffers);
      }
      var kept := PublishImmutable(u, PrivatePath(u), u.canonPrivate(Private(inventory.value.snapshot, aliases)));
      if !kept {
        return None, Some(PrivateDiffers);
      }
      manifest, error := Some(m), None;
    }
  }
}
