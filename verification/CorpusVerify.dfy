/** Resolving archived sources and verifying a manifest against the archive. */
module CorpusVerify {
  import opened Sequences
  import opened Packages
  import opened Corpus

  // ----- POSIX paths -----

  /** The pieces between slashes. */
  function Split(s: string): (r: seq<string>)
    ensures r != []
  {
    if s == [] then [[]]
    else if s[0] == '/' then [[]] + Split(s[1..])
    else [[s[0]] + Split(s[1..])[0]] + Split(s[1..])[1..]
  }

  predicate Empty(piece: string) {
    piece == "" || piece == "."
  }

  function WithoutEmpty(pieces: seq<string>): seq<string> {
    if pieces == [] then []
    else (if Empty(pieces[0]) then [] else [pieces[0]]) + WithoutEmpty(pieces[1..])
  }

  function Joined(base: string, parts: seq<string>): string
    decreases parts
  {
    if parts == [] then base else Joined(Under(base, parts[0]), parts[1..])
  }

  const PARENT: string := ".."

  /** Where a relative path leads under `base`; absolute and climbing paths are refused. */
  function Locate(base: string, rel: string): Option<string> {
    if rel != [] && rel[0] == '/' then None
    else if PARENT in WithoutEmpty(Split(rel)) then None
    else Some(Joined(base, WithoutEmpty(Split(rel))))
  }

  /** `resolve_source` */
  function ResolveSource(manifestDir: string, sourcePath: string): Option<string> {
    if sourcePath == "" then None else Locate(manifestDir, sourcePath)
  }

  predicate Plain(piece: string) {
    forall i :: 0 <= i < |piece| ==> piece[i] != '/'
  }

  /** A path below a directory: steps down into named entries, never up and never across. */
  ghost predicate LiesBelow(base: string, path: string) {
    exists parts: seq<string> :: path == Joined(base, parts) && Descends(parts)
  }

  ghost predicate Descends(parts: seq<string>) {
    forall i :: 0 <= i < |parts| ==> Plain(parts[i]) && !Empty(parts[i]) && parts[i] != PARENT
  }

  lemma {:induction false} SplitPlain(s: string)
    ensures forall i :: 0 <= i < |Split(s)| ==> Plain(Split(s)[i])
  {
    if s != [] {
      SplitPlain(s[1..]);
      var rest := Split(s[1..]);
      assert Plain(rest[0]);
      if s[0] != '/' {
        assert Plain([s[0]] + rest[0]);
      }
    }
  }

  lemma {:induction false} WithoutEmptyFacts(pieces: seq<string>)
    requires forall i :: 0 <= i < |pieces| ==> Plain(pieces[i])
    ensures forall p :: p in WithoutEmpty(pieces) ==> Plain(p) && !Empty(p)
  {
    hide Empty, Plain;
    if pieces != [] {
      WithoutEmptyFacts(pieces[1..]);
    }
  }

  /** On a host whose only separator is `/`: whatever the manifest says, a resolved source lies below its directory. */
  lemma {:induction false} PosixStaysBelow(dir: string, sourcePath: string)
    requires ResolveSource(dir, sourcePath).Some?
    ensures LiesBelow(dir, ResolveSource(dir, sourcePath).value)
  {
    hide Empty, Plain, PARENT, Joined;
    SplitPlain(sourcePath);
    WithoutEmptyFacts(Split(sourcePath));
    var parts := WithoutEmpty(Split(sourcePath));
    forall i | 0 <= i < |parts| ensures Plain(parts[i]) && !Empty(parts[i]) && parts[i] != PARENT {
      assert parts[i] in parts;
    }
    assert Descends(parts);
  }

  // ----- the host's paths -----

  /** Where the pieces are joined again: a POSIX host, or Windows with the drive of the manifest's directory. */
  datatype Host = Posix | Windows(drive: char)

  const BACKSLASH: char := '\\'

  /** The pieces between backslashes. */
  function Unslash(s: string): (r: seq<string>)
    ensures r != []
  {
    if s == [] then [[]]
    else if s[0] == BACKSLASH then [[]] + Unslash(s[1..])
    else [[s[0]] + Unslash(s[1..])[0]] + Unslash(s[1..])[1..]
  }

  predicate SameLetter(a: char, b: char) {
    a == b || ('a' <= a <= 'z' && b as int == a as int - 32) || ('a' <= b <= 'z' && a as int == b as int - 32)
  }

  predicate HasDrive(piece: string) {
    |piece| >= 2 && piece[1] == ':'
  }

  /** Joined to a directory, the piece takes its place: it starts at the root of a drive, or names another drive. */
  predicate Replaces(host: Host, piece: string) {
    host.Windows?
    && if HasDrive(piece) then !SameLetter(piece[0], host.drive) || (|piece| > 2 && piece[2] == BACKSLASH)
       else piece != "" && piece[0] == BACKSLASH
  }

  /** The steps that a piece which stays relative stands for on the host. */
  function HostSteps(host: Host, piece: string): seq<string> {
    match host
    case Posix => [piece]
    case Windows(_) => WithoutEmpty(Unslash(if HasDrive(piece) then piece[2..] else piece))
  }

  /** Where joining the pieces to a directory leads. */
  datatype Landing = From(steps: seq<string>) | Elsewhere

  function Landed(host: Host, pieces: seq<string>): Landing {
    if pieces == [] then From([])
    else
      var before := Landed(host, pieces[..|pieces| - 1]);
      var last := pieces[|pieces| - 1];
      if Replaces(host, last) || before.Elsewhere? then Elsewhere else From(before.steps + HostSteps(host, last))
  }

  /** `resolve_source` on a host; none is its refusal. */
  function ResolveOn(host: Host, sourcePath: string): Option<Landing> {
    if ResolveSource("", sourcePath).None? then None else Some(Landed(host, WithoutEmpty(Split(sourcePath))))
  }

  /** Steps down into named entries of the directory, never up and never across. */
  predicate StaysBelow(l: Landing) {
    l.From? && PARENT !in l.steps
  }

  /** What a caller can ask of a source path on the host: no piece that replaces the directory, no `..` between backslashes. */
  predicate HostSafe(host: Host, sourcePath: string) {
    forall piece :: piece in WithoutEmpty(Split(sourcePath)) ==> !Replaces(host, piece) && PARENT !in HostSteps(host, piece)
  }

  lemma {:induction false} LandedBelow(host: Host, pieces: seq<string>)
    ensures StaysBelow(Landed(host, pieces)) <==>
            forall piece :: piece in pieces ==> !Replaces(host, piece) && PARENT !in HostSteps(host, piece)
  {
    hide Replaces, HostSteps, PARENT;
    if pieces != [] {
      var init, last := pieces[..|pieces| - 1], pieces[|pieces| - 1];
      LandedBelow(host, init);
      assert pieces == init + [last];
    }
  }

  /**
   On every host: a source that is not refused lies below the manifest's directory if and only if no piece of it replaces
   the directory or climbs between the host's own separators. On a POSIX host that is always so, and on Windows whenever
   the path holds neither a backslash nor a colon.
   */
  lemma {:induction false} SourcesStayBelow(host: Host, sourcePath: string)
    requires ResolveOn(host, sourcePath).Some?
    ensures StaysBelow(ResolveOn(host, sourcePath).value) <==> HostSafe(host, sourcePath)
    ensures host.Posix? || (BACKSLASH !in sourcePath && ':' !in sourcePath) ==> HostSafe(host, sourcePath)
  {
    hide Split, WithoutEmpty, Replaces, HostSteps, PARENT;
    var pieces := WithoutEmpty(Split(sourcePath));
    LandedBelow(host, pieces);
    if host.Posix? || (BACKSLASH !in sourcePath && ':' !in sourcePath) {
      PiecesOf(sourcePath);
      forall piece | piece in pieces ensures !Replaces(host, piece) && PARENT !in HostSteps(host, piece) {
        PlainPiece(host, piece);
      }
    }
  }

  /** Every character of a piece is one of the path, and no piece is empty. */
  lemma {:induction false} PiecesOf(s: string)
    ensures forall piece, c :: piece in WithoutEmpty(Split(s)) && c in piece ==> c in s
    ensures forall piece :: piece in WithoutEmpty(Split(s)) ==> !Empty(piece)
  {
    hide Split, Empty, WithoutEmpty;
    SplitChars(s);
    SomeOf(Split(s));
  }

  lemma {:induction false} SplitChars(s: string)
    ensures forall piece, c :: piece in Split(s) && c in piece ==> c in s
  {
    if s != [] {
      SplitChars(s[1..]);
      var rest := Split(s[1..]);
      assert rest[0] in rest && s == [s[0]] + s[1..];
      forall piece, c | piece in Split(s) && c in piece ensures c in s {
        if s[0] != '/' && piece == [s[0]] + rest[0] && c != s[0] {
          assert c in rest[0];
        } else if piece in rest {
          assert c in s[1..];
        }
      }
    }
  }

  lemma {:induction false} SomeOf(pieces: seq<string>)
    ensures forall piece :: piece in WithoutEmpty(pieces) ==> piece in pieces && !Empty(piece)
  {
    hide Empty;
    if pieces != [] {
      SomeOf(pieces[1..]);
      assert pieces == [pieces[0]] + pieces[1..];
    }
  }

  lemma {:induction false} PlainPiece(host: Host, piece: string)
    requires host.Posix? || (BACKSLASH !in piece && ':' !in piece)
    requires !Empty(piece) && piece != PARENT
    ensures !Replaces(host, piece) && PARENT !in HostSteps(host, piece)
  {
    hide PARENT;
    if host.Windows? {
      assert !HasDrive(piece);
      UnslashOne(piece);
      assert [piece][1..] == [] && WithoutEmpty([]) == [];
      assert HostSteps(host, piece) == [piece];
    }
  }

  lemma {:induction false} UnslashOne(s: string)
    requires BACKSLASH !in s
    ensures Unslash(s) == [s]
  {
    if s != [] {
      assert BACKSLASH !in s[1..];
      UnslashOne(s[1..]);
      assert s == [s[0]] + s[1..];
    }
  }

  lemma {:induction false} UnslashNext(s: string)
    requires s != [] && s[0] != BACKSLASH
    ensures Unslash(s) == [[s[0]] + Unslash(s[1..])[0]] + Unslash(s[1..])[1..]
  {}

  const CLIMBING: string := "..\\x"
  const OTHER_DRIVE: string := "C:x"

  /** On Windows `..\x` and `C:x` are not refused, and lead out of a directory on another drive. */
  lemma {:induction false} WindowsSourcesEscape()
    ensures ResolveOn(Windows('D'), CLIMBING) == Some(From(["..", "x"])) && !StaysBelow(From(["..", "x"]))
    ensures ResolveOn(Windows('D'), OTHER_DRIVE) == Some(Elsewhere)
  {
    hide Joined;
    SplitOne(CLIMBING);
    SplitOne(OTHER_DRIVE);
    KeepsOne(CLIMBING);
    KeepsOne(OTHER_DRIVE);
    LandsAlone(Windows('D'), CLIMBING);
    LandsAlone(Windows('D'), OTHER_DRIVE);
    ClimbingSteps();
  }

  lemma {:induction false} KeepsOne(piece: string)
    requires !Empty(piece)
    ensures WithoutEmpty([piece]) == [piece]
  {
    assert [piece][1..] == [] && WithoutEmpty([]) == [];
  }

  lemma {:induction false} LandsAlone(host: Host, piece: string)
    ensures Landed(host, [piece]) == if Replaces(host, piece) then Elsewhere else From(HostSteps(host, piece))
  {
    hide Replaces, HostSteps;
    assert [piece][..0] == [] && Landed(host, []) == From([]);
    assert [] + HostSteps(host, piece) == HostSteps(host, piece);
  }

  lemma {:induction false} ClimbingSteps()
    ensures HostSteps(Windows('D'), CLIMBING) == ["..", "x"]
  {
    UnslashOne("x");
    assert CLIMBING[3..] == "x" && CLIMBING[2..] == [BACKSLASH] + "x" && CLIMBING[1..] == "." + CLIMBING[2..];
    assert CLIMBING[2..][1..] == "x" && CLIMBING[1..][1..] == CLIMBING[2..];
    assert Unslash(CLIMBING[2..]) == ["", "x"];
    UnslashNext(CLIMBING[1..]);
    assert "." + "" == "." && Unslash(CLIMBING[1..]) == [".", "x"];
    UnslashNext(CLIMBING);
    assert "." + "." == ".." && Unslash(CLIMBING) == ["..", "x"];
    assert ["..", "x"][1..] == ["x"] && ["x"][1..] == [] && WithoutEmpty([]) == [];
    assert WithoutEmpty(["x"]) == ["x"];
  }

  lemma {:induction false} SplitOne(s: string)
    requires Plain(s)
    ensures Split(s) == [s]
  {
    if s != [] {
      assert Plain(s[1..]);
      SplitOne(s[1..]);
      assert s == [s[0]] + s[1..];
    }
  }

  lemma {:induction false} SplitTwo(a: string, b: string)
    requires Plain(a) && Plain(b)
    ensures Split(a + SLASH + b) == [a, b]
  {
    var s := a + SLASH + b;
    if a == [] {
      assert s[1..] == b;
      SplitOne(b);
    } else {
      assert s[1..] == a[1..] + SLASH + b;
      assert Plain(a[1..]);
      SplitTwo(a[1..], b);
      assert a == [a[0]] + a[1..];
    }
  }

  /** The path written into the manifest for a hash resolves to the archived file. */
  lemma {:induction false} LocateSource(base: string, sha: string)
    requires Plain(sha)
    ensures Locate(base, SourcePath(sha)) == Some(Under(base, SourcePath(sha)))
  {
    hide SLASH, Joined, Split, PARENT;
    var file := sha + SUFFIX;
    SplitTwo(SUBDIR, file);
    JoinedTwo(base, file);
    NamesKept(file);
    assert SourcePath(sha)[0] == SUBDIR[0];
    NotParent(sha);
  }

  lemma {:induction false} NotParent(sha: string)
    ensures sha + SUFFIX != PARENT && SUBDIR != PARENT && |sha + SUFFIX| >= 5
  {
    assert |SUFFIX| == 5 && |PARENT| == 2 && |SUBDIR| == 9;
  }

  lemma {:induction false} NamesKept(file: string)
    requires |file| >= 5
    ensures WithoutEmpty([SUBDIR, file]) == [SUBDIR, file]
  {
    assert [SUBDIR, file][1..] == [file] && [file][1..] == [];
    assert |SUBDIR| == 9;
    assert WithoutEmpty([file]) == [file] + WithoutEmpty([]);
  }

  lemma {:induction false} JoinedTwo(base: string, file: string)
    ensures Joined(base, [SUBDIR, file]) == Under(base, SUBDIR + SLASH + file)
  {
    hide SLASH, SUBDIR;
    var inner := Under(base, SUBDIR);
    assert [SUBDIR, file][1..] == [file] && [file][1..] == [];
    assert Joined(base, [SUBDIR, file]) == Joined(inner, [file]);
    assert Joined(inner, [file]) == Joined(Under(inner, file), []) == Under(inner, file);
    assert base + SLASH + SUBDIR + SLASH + file == base + SLASH + (SUBDIR + SLASH + file);
  }

  // ----- verification -----

  datatype Problem =
    | BadManifest | CountDrift | UnexpectedCount | UnstableId(i: nat) | DuplicateSha(i: nat) | DuplicateId(i: nat)
    | PathDrift(i: nat) | FeatureMissing(i: nat, key: string) | Traversing(i: nat) | FileMissing(i: nat)
    | ArchivedSize(i: nat) | ArchivedHash(i: nat)

  /** `load_manifest` */
  function LoadManifest(u: Setup, raw: seq<byte>): Option<Manifest> {
    var m := u.parse(raw);
    if m.Some? && m.value.schema == SCHEMA && m.value.corpusId == CORPUS_ID then m else None
  }

  function FeatureProblems(features: Features, keys: seq<string>, i: nat): seq<Problem> {
    if keys == [] then []
    else
      FeatureProblems(features, keys[..|keys| - 1], i)
      + if keys[|keys| - 1] in features then [] else [FeatureMissing(i, keys[|keys| - 1])]
  }

  function ShasBefore(docs: seq<Document>, n: nat): set<string>
    requires n <= |docs|
  {
    set j | 0 <= j < n :: docs[j].sha
  }

  function IdsBefore(docs: seq<Document>, n: nat): set<string>
    requires n <= |docs|
  {
    set j | 0 <= j < n :: docs[j].id
  }

  lemma {:induction false} NothingSeen(docs: seq<Document>)
    ensures ShasBefore(docs, 0) == {} && IdsBefore(docs, 0) == {}
  {}

  lemma {:induction false} SeenNext(docs: seq<Document>, n: nat)
    requires n < |docs|
    ensures ShasBefore(docs, n + 1) == ShasBefore(docs, n) + {docs[n].sha}
    ensures IdsBefore(docs, n + 1) == IdsBefore(docs, n) + {docs[n].id}
  {}

  function EntryProblems(docs: seq<Document>, i: nat): seq<Problem>
    requires i < |docs|
  {
    var d := docs[i];
    (if d.id != DOC + d.sha then [UnstableId(i)] else [])
    + (if d.sha in ShasBefore(docs, i) then [DuplicateSha(i)] else [])
    + (if d.id in IdsBefore(docs, i) then [DuplicateId(i)] else [])
    + (if d.sourcePath != SourcePath(d.sha) then [PathDrift(i)] else [])
    + FeatureProblems(d.features, FEATURE_KEYS, i)
  }

  function StructureProblems(docs: seq<Document>, n: nat): seq<Problem>
    requires n <= |docs|
  {
    if n == 0 then [] else StructureProblems(docs, n - 1) + EntryProblems(docs, n - 1)
  }

  function FileProblems(fs: Files, hash: Digest, base: string, d: Document, i: nat): seq<Problem> {
    var at := Locate(base, d.sourcePath);
    if at.None? then [Traversing(i)]
    else if at.value !in fs then [FileMissing(i)]
    else if |fs[at.value]| != d.size then [ArchivedSize(i)]
    else if hash(fs[at.value]) != d.sha then [ArchivedHash(i)]
    else []
  }

  function ArchiveProblems(fs: Files, hash: Digest, base: string, docs: seq<Document>, n: nat): seq<Problem>
    requires n <= |docs|
  {
    if n == 0 then []
    else ArchiveProblems(fs, hash, base, docs, n - 1) + FileProblems(fs, hash, base, docs[n - 1], n - 1)
  }

  function Problems(u: Setup, fs: Files, raw: seq<byte>, base: string, expected: Option<int>): seq<Problem> {
    var loaded := LoadManifest(u, raw);
    if loaded.None? then [BadManifest]
    else
      var m := loaded.value;
      (if m.count != |m.documents| then [CountDrift] else [])
      + StructureProblems(m.documents, |m.documents|)
      + (if expected.Some? && m.count != expected.value then [UnexpectedCount] else [])
      + ArchiveProblems(fs, u.hash, base, m.documents, |m.documents|)
  }

  method CheckFeatures(features: Features, i: nat) returns (r: seq<Problem>)
    ensures r == FeatureProblems(features, FEATURE_KEYS, i)
  {
    hide FEATURE_KEYS;
    r := [];
    for k := 0 to |FEATURE_KEYS|
      invariant r == FeatureProblems(features, FEATURE_KEYS[..k], i)
    {
      assert FEATURE_KEYS[..k + 1][..k] == FEATURE_KEYS[..k];
      if FEATURE_KEYS[k] !in features {
        r := r + [FeatureMissing(i, FEATURE_KEYS[k])];
      }
    }
    assert FEATURE_KEYS[..|FEATURE_KEYS|] == FEATURE_KEYS;
  }

  method CheckEntry(docs: seq<Document>, i: nat, seenShas: set<string>, seenIds: set<string>) returns (r: seq<Problem>)
    requires i < |docs| && seenShas == ShasBefore(docs, i) && seenIds == IdsBefore(docs, i)
    ensures r == EntryProblems(docs, i)
  {
    hide SourcePath, FEATURE_KEYS, DOC, ShasBefore, IdsBefore, FeatureProblems;
    var d := docs[i];
    r := [];
    if d.id != DOC + d.sha {
      r := r + [UnstableId(i)];
    }
    if d.sha in seenShas {
      r := r + [DuplicateSha(i)];
    }
    if d.id in seenIds {
      r := r + [DuplicateId(i)];
    }
    if d.sourcePath != SourcePath(d.sha) {
      r := r + [PathDrift(i)];
    }
    var missing := CheckFeatures(d.features, i);
    r := r + missing;
  }

  /** `_check_documents` */
  method CheckDocuments(m: Manifest) returns (r: seq<Problem>)
    ensures r == (if m.count != |m.documents| then [CountDrift] else []) + StructureProblems(m.documents, |m.documents|)
  {
    hide EntryProblems, ShasBefore, IdsBefore;
    NothingSeen(m.documents);
    r := if m.count != |m.documents| then [CountDrift] else [];
    ghost var head := r;
    var seenIds: set<string>, seenShas: set<string> := {}, {};
    for i := 0 to |m.documents|
      invariant seenShas == ShasBefore(m.documents, i) && seenIds == IdsBefore(m.documents, i)
      invariant r == head + StructureProblems(m.documents, i)
    {
      SeenNext(m.documents, i);
      var found := CheckEntry(m.documents, i, seenShas, seenIds);
      r := r + found;
      seenShas := seenShas + {m.documents[i].sha};
      seenIds := seenIds + {m.documents[i].id};
    }
  }

  /** `verify_manifest`; none stands for the exception on a missing manifest file. */
  method VerifyManifest(u: Setup, fs: Files, dir: string, name: string, root: Option<string>, expected: Option<int>)
    returns (problems: Option<seq<Problem>>)
    ensures problems.Some? <==> Under(dir, name) in fs
    ensures problems.Some? ==>
              problems.value == Problems(u, fs, fs[Under(dir, name)], if root.Some? then root.value else dir, expected)
  {
    hide StructureProblems, Locate, SCHEMA, CORPUS_ID, LoadManifest, Under;
    var path := Under(dir, name);
    if path !in fs {
      return None;
    }
    var base := if root.Some? then root.value else dir;
    var loaded := LoadManifest(u, fs[path]);
    if loaded.None? {
      return Some([BadManifest]);
    }
    var m := loaded.value;
    var found := CheckDocuments(m);
    if expected.Some? && m.count != expected.value {
      found := found + [UnexpectedCount];
    }
    ghost var head := found;
    for i := 0 to |m.documents|
      invariant found == head + ArchiveProblems(fs, u.hash, base, m.documents, i)
    {
      var d := m.documents[i];
      var at := Locate(base, d.sourcePath);
      if at.None? {
        found := found + [Traversing(i)];
      } else if at.value !in fs {
        found := found + [FileMissing(i)];
      } else if |fs[at.value]| != d.size {
        found := found + [ArchivedSize(i)];
      } else if u.hash(fs[at.value]) != d.sha {
        found := found + [ArchivedHash(i)];
      }
    }
    problems := Some(found);
  }

  // ----- what no problem means -----

  /** The hash is written without slashes, as a hexadecimal digest is. */
  ghost predicate PlainHash(hash: Digest) {
    forall b :: Plain(hash(b))
  }

  /** Under `base`, the archived file of the entry is there, with the size and hash the entry states. */
  predicate Stored(fs: Files, hash: Digest, base: string, d: Document) {
    var at := Under(base, SourcePath(d.sha));
    at in fs && |fs[at]| == d.size && hash(fs[at]) == d.sha
  }

  predicate WellFormed(d: Document) {
    d.id == DOC + d.sha && d.sourcePath == SourcePath(d.sha) && forall k :: k in FEATURE_KEYS ==> k in d.features
  }

  /** Everything a verified manifest promises. */
  ghost predicate Faithful(m: Manifest, fs: Files, hash: Digest, base: string, expected: Option<int>) {
    && m.schema == SCHEMA && m.corpusId == CORPUS_ID
    && m.count == |m.documents| && (expected.Some? ==> m.count == expected.value)
    && (forall d :: d in m.documents ==> WellFormed(d) && Stored(fs, hash, base, d))
    && (forall i, j :: 0 <= i < j < |m.documents| ==>
          m.documents[i].sha != m.documents[j].sha && m.documents[i].id != m.documents[j].id)
  }

  lemma {:induction false} NoFeatureProblems(features: Features, keys: seq<string>, i: nat)
    ensures FeatureProblems(features, keys, i) == [] <==> forall k :: k in keys ==> k in features
  {
    if keys != [] {
      NoFeatureProblems(features, keys[..|keys| - 1], i);
      assert keys == keys[..|keys| - 1] + [keys[|keys| - 1]];
    }
  }

  lemma {:induction false} NoEntryProblems(docs: seq<Document>, i: nat)
    requires i < |docs|
    ensures EntryProblems(docs, i) == [] <==>
            WellFormed(docs[i]) && forall j :: 0 <= j < i ==> docs[j].sha != docs[i].sha && docs[j].id != docs[i].id
  {
    hide SourcePath, DOC, FEATURE_KEYS;
    NoFeatureProblems(docs[i].features, FEATURE_KEYS, i);
    assert docs[i].sha in ShasBefore(docs, i) <==> exists j :: 0 <= j < i && docs[j].sha == docs[i].sha;
    assert docs[i].id in IdsBefore(docs, i) <==> exists j :: 0 <= j < i && docs[j].id == docs[i].id;
  }

  lemma {:induction false} NoStructureProblems(docs: seq<Document>, n: nat)
    requires n <= |docs|
    ensures StructureProblems(docs, n) == [] <==> forall i :: 0 <= i < n ==> EntryProblems(docs, i) == []
  {
    hide EntryProblems;
    if n > 0 {
      NoStructureProblems(docs, n - 1);
    }
  }

  lemma {:induction false} NoArchiveProblems(fs: Files, hash: Digest, base: string, docs: seq<Document>, n: nat)
    requires n <= |docs|
    ensures ArchiveProblems(fs, hash, base, docs, n) == [] <==>
            forall i :: 0 <= i < n ==> FileProblems(fs, hash, base, docs[i], i) == []
  {
    hide FileProblems;
    if n > 0 {
      NoArchiveProblems(fs, hash, base, docs, n - 1);
    }
  }

  lemma {:induction false} NoFileProblems(fs: Files, hash: Digest, base: string, d: Document, i: nat)
    requires WellFormed(d) && PlainHash(hash)
    ensures FileProblems(fs, hash, base, d, i) == [] <==> Stored(fs, hash, base, d)
  {
    hide Locate, SourcePath, Under, FEATURE_KEYS, DOC, Plain;
    var at := Locate(base, d.sourcePath);
    if FileProblems(fs, hash, base, d, i) == [] {
      assert Plain(hash(fs[at.value]));
      LocateSource(base, d.sha);
    }
    if Stored(fs, hash, base, d) {
      assert Plain(hash(fs[Under(base, SourcePath(d.sha))]));
      LocateSource(base, d.sha);
    }
  }

  /** `verify_manifest` finds no problem if and only if the manifest is faithful to the files. */
  lemma {:induction false} NoProblemsMeansFaithful(u: Setup, fs: Files, raw: seq<byte>, base: string, expected: Option<int>)
    requires PlainHash(u.hash)
    ensures Problems(u, fs, raw, base, expected) == [] <==>
            u.parse(raw).Some? && Faithful(u.parse(raw).value, fs, u.hash, base, expected)
  {
    hide EntryProblems, FileProblems, StructureProblems, ArchiveProblems, WellFormed, Stored, SCHEMA, CORPUS_ID;
    if LoadManifest(u, raw).Some? {
      var m := u.parse(raw).value;
      var docs, n := m.documents, |m.documents|;
      NoStructureProblems(docs, n);
      NoArchiveProblems(fs, u.hash, base, docs, n);
      forall i | 0 <= i < n
        ensures EntryProblems(docs, i) == [] && FileProblems(fs, u.hash, base, docs[i], i) == [] <==>
                EntryProblems(docs, i) == [] && Stored(fs, u.hash, base, docs[i])
      {
        NoEntryProblems(docs, i);
        if WellFormed(docs[i]) {
          NoFileProblems(fs, u.hash, base, docs[i], i);
        }
      }
      FaithfulEntries(m, fs, u.hash, base);
    }
  }

  lemma {:induction false} FaithfulEntries(m: Manifest, fs: Files, hash: Digest, base: string)
    ensures (forall i :: 0 <= i < |m.documents| ==>
               EntryProblems(m.documents, i) == [] && Stored(fs, hash, base, m.documents[i]))
            <==>
            (forall d :: d in m.documents ==> WellFormed(d) && Stored(fs, hash, base, d))
            && (forall i, j :: 0 <= i < j < |m.documents| ==>
                  m.documents[i].sha != m.documents[j].sha && m.documents[i].id != m.documents[j].id)
  {
    hide EntryProblems, WellFormed, Stored;
    forall i | 0 <= i < |m.documents|
      ensures EntryProblems(m.documents, i) == [] <==>
              WellFormed(m.documents[i]) && forall j :: 0 <= j < i ==>
                m.documents[j].sha != m.documents[i].sha && m.documents[j].id != m.documents[i].id
    {
      NoEntryProblems(m.documents, i);
    }
  }
}
