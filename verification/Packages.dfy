/** Packages as maps from member names to bytes, their hash maps, and the verification of an edited package. */
module Packages {
  import opened Sequences

  type Package = map<string, seq<byte>>
  type Digest = seq<byte> -> string

  const DOCUMENT: string := "word/document.xml"

  /** No two byte strings share a hash. */
  ghost predicate CollisionFree(hash: Digest) {
    forall a, b :: hash(a) == hash(b) ==> a == b
  }

  /** `member_shas` */
  function MemberShas(hash: Digest, p: Package): map<string, string> {
    map n | n in p :: hash(p[n])
  }

  lemma {:induction false} SameMembers(hash: Digest, a: Package, b: Package)
    requires CollisionFree(hash)
    ensures MemberShas(hash, a) == MemberShas(hash, b) <==> a == b
  {
    if MemberShas(hash, a) == MemberShas(hash, b) {
      assert a.Keys == MemberShas(hash, a).Keys == MemberShas(hash, b).Keys == b.Keys;
      forall n | n in a ensures a[n] == b[n] {
        assert MemberShas(hash, a)[n] == MemberShas(hash, b)[n];
      }
    }
  }

  datatype Comparison = Comparison(same: bool, added: set<string>, removed: set<string>, changed: set<string>)

  /** `compare_packages` */
  function ComparePackages(src: map<string, string>, out: map<string, string>): Comparison {
    Comparison(src == out, out.Keys - src.Keys, src.Keys - out.Keys,
               set n | n in src && n in out && src[n] != out[n])
  }

  datatype EditVerdict = Exact | MembersChanged | OtherMemberChanged | Unreadable | EditLost | WrongOccurrence | Drift

  /** `verify_edit` */
  function VerifyEdit(src: seq<byte>, out: Option<seq<byte>>, expected: seq<byte>, srcMap: map<string, string>,
                      outMap: map<string, string>, query: seq<byte>, replacement: seq<byte>): EditVerdict {
    var cmp := ComparePackages(srcMap, outMap);
    if cmp.added != {} || cmp.removed != {} then MembersChanged
    else if cmp.changed - {DOCUMENT} != {} then OtherMemberChanged
    else if out.None? then Unreadable
    else if out.value == expected then Exact
    else if out.value == src then EditLost
    else if PyCount(out.value, replacement) == 1 && PyCount(out.value, query) >= 1 then WrongOccurrence
    else Drift
  }

  /**
   The verdict is exact if and only if the edited package is the package it was compared with, apart from
   `word/document.xml`, and that member is the expected one; the source bytes `doc` play no part in it.
   */
  lemma {:induction false} ExactMeans(hash: Digest, doc: seq<byte>, src: Package, out: Package, expected: seq<byte>,
                                      query: seq<byte>, replacement: seq<byte>)
    requires CollisionFree(hash)
    ensures VerifyEdit(doc, if DOCUMENT in out then Some(out[DOCUMENT]) else None, expected,
                       MemberShas(hash, src), MemberShas(hash, out), query, replacement) == Exact
            <==> DOCUMENT in src && out == src[DOCUMENT := expected]
  {
    hide PyCount, DOCUMENT;
    var cmp := ComparePackages(MemberShas(hash, src), MemberShas(hash, out));
    if cmp.added == {} && cmp.removed == {} && cmp.changed - {DOCUMENT} == {} && DOCUMENT in out && out[DOCUMENT] == expected {
      OnlyDocumentDiffers(hash, src, out);
      assert out == src[DOCUMENT := expected];
    }
    if DOCUMENT in src && out == src[DOCUMENT := expected] {
      assert out.Keys == src.Keys;
      assert cmp.added == {} && cmp.removed == {};
      assert cmp.changed - {DOCUMENT} == {};
    }
  }

  lemma {:induction false} OnlyDocumentDiffers(hash: Digest, src: Package, out: Package)
    requires CollisionFree(hash)
    requires var cmp := ComparePackages(MemberShas(hash, src), MemberShas(hash, out));
             cmp.added == {} && cmp.removed == {} && cmp.changed - {DOCUMENT} == {}
    ensures src.Keys == out.Keys && forall n :: n in src && n != DOCUMENT ==> out[n] == src[n]
  {
    var s, o := MemberShas(hash, src), MemberShas(hash, out);
    var cmp := ComparePackages(s, o);
    assert src.Keys == s.Keys && out.Keys == o.Keys;
    forall n ensures n in src <==> n in out {
      assert n in cmp.removed <==> n in src && n !in out;
      assert n in cmp.added <==> n in out && n !in src;
    }
    forall n | n in src && n != DOCUMENT ensures out[n] == src[n] {
      assert n !in cmp.changed - {DOCUMENT};
    }
  }

  // ----- tree snapshots -----

  type Tree = map<string, seq<byte>>

  function Snapshot(hash: Digest, t: Tree): map<string, string> {
    map n | n in t :: hash(t[n])
  }

  const SIDECAR: string := ".docx2typed"

  /** Some component of the path ends in `.docx2typed`. */
  predicate SidecarPath(path: string) {
    exists j :: |SIDECAR| <= j <= |path| && (j == |path| || path[j] == '/') && path[j - |SIDECAR|..j] == SIDECAR
  }

  /** `_only_expected_creation` */
  predicate OnlyExpectedCreation(before: map<string, string>, after: map<string, string>) {
    && (forall n :: n in after ==> if n in before then before[n] == after[n] else SidecarPath(n))
    && (forall n :: n in before ==> n in after)
  }

  /** What two clean snapshots prove: every file is still there with its bytes, and only sidecars are new. */
  lemma {:induction false} CleanMeans(hash: Digest, before: Tree, after: Tree)
    requires CollisionFree(hash)
    ensures OnlyExpectedCreation(Snapshot(hash, before), Snapshot(hash, after)) <==>
            && (forall n :: n in before ==> n in after && after[n] == before[n])
            && (forall n :: n in after && n !in before ==> SidecarPath(n))
  {
    var b, a := Snapshot(hash, before), Snapshot(hash, after);
    if OnlyExpectedCreation(b, a) {
      forall n | n in before ensures n in after && after[n] == before[n] {
        assert n in b && n in a;
      }
      forall n | n in after && n !in before ensures SidecarPath(n) {
        assert n in a && n !in b;
      }
    }
  }
}
