/** Why an edited package is refused, and which new files are sidecars, told by members, occurrences and path components. */
module PackageLaws {
  import opened Sequences
  import opened Packages
  import opened Uniqueness

  /** The packages hold members of the same names, and the same bytes under every name but `word/document.xml`. */
  ghost predicate SameElsewhere(src: Package, out: Package) {
    src.Keys == out.Keys && forall n :: n in src && n != "word/document.xml" ==> out[n] == src[n]
  }

  /**
   The verdict on an edited package, reason by reason: names that differ; another member that differs; the source's
   document again; the replacement once beside the query; and anything else.
   */
  lemma {:induction false} VerdictExactly(hash: Digest, doc: seq<byte>, src: Package, out: Package, expected: seq<byte>,
                                          query: seq<byte>, replacement: seq<byte>)
    requires CollisionFree(hash) && "word/document.xml" in out
    ensures var edited := out["word/document.xml"];
            var r := VerifyEdit(doc, Some(edited), expected, MemberShas(hash, src), MemberShas(hash, out), query, replacement);
            && (r == MembersChanged <==> src.Keys != out.Keys)
            && (r == OtherMemberChanged <==> src.Keys == out.Keys && !SameElsewhere(src, out))
            && (r == Exact <==> SameElsewhere(src, out) && edited == expected)
            && (r == EditLost <==> SameElsewhere(src, out) && edited != expected && edited == doc)
            && (r == WrongOccurrence <==>
                  SameElsewhere(src, out) && edited != expected && edited != doc
                  && Once(edited, replacement) && !Never(edited, query))
            && r != Unreadable
  {
    hide PyCount, Once, Never;
    var s, o := MemberShas(hash, src), MemberShas(hash, out);
    var cmp := ComparePackages(s, o);
    assert s.Keys == src.Keys && o.Keys == out.Keys;
    KeysCompared(s, o);
    forall n | n in src && n in out ensures s[n] == o[n] <==> src[n] == out[n] {}
    if src.Keys == out.Keys {
      forall n ensures n in cmp.changed <==> n in src && src[n] != out[n] {}
      if SameElsewhere(src, out) {
        assert cmp.changed - {DOCUMENT} == {};
      } else {
        var n :| n in src && n != "word/document.xml" && out[n] != src[n];
        assert n in cmp.changed - {DOCUMENT};
      }
    }
    CountedOnce(out["word/document.xml"], replacement);
    CountedOnce(out["word/document.xml"], query);
  }

  lemma {:induction false} KeysCompared(s: map<string, string>, o: map<string, string>)
    ensures var cmp := ComparePackages(s, o); cmp.added == {} && cmp.removed == {} <==> s.Keys == o.Keys
  {
    var cmp := ComparePackages(s, o);
    if cmp.added == {} && cmp.removed == {} {
      forall n ensures n in s <==> n in o {
        assert n !in cmp.removed && n !in cmp.added;
      }
    }
  }

  /** `[i, j)` is one component of the path. */
  ghost predicate Component(path: string, i: nat, j: nat) {
    && i <= j <= |path| && (i == 0 || path[i - 1] == '/') && (j == |path| || path[j] == '/')
    && forall k :: i <= k < j ==> path[k] != '/'
  }

  /** A sidecar is what has a component that ends in `.docx2typed`. */
  lemma {:induction false} SidecarByComponent(path: string)
    ensures SidecarPath(path) <==>
            exists i: nat, j: nat :: Component(path, i, j) && i + 11 <= j && path[j - 11..j] == ".docx2typed"
  {
    assert |SIDECAR| == 11 && SIDECAR == ".docx2typed";
    if SidecarPath(path) {
      var j :| |SIDECAR| <= j <= |path| && (j == |path| || path[j] == '/') && path[j - |SIDECAR|..j] == SIDECAR;
      var i := ComponentStart(path, j - 11);
      forall k | i <= k < j ensures path[k] != '/' {
        if k >= j - 11 {
          assert path[k] == path[j - 11..j][k - (j - 11)] == ".docx2typed"[k - (j - 11)];
        }
      }
      assert Component(path, i, j);
    }
    if i: nat, j: nat :| Component(path, i, j) && i + 11 <= j && path[j - 11..j] == ".docx2typed" {
      assert |SIDECAR| <= j <= |path| && path[j - |SIDECAR|..j] == SIDECAR;
    }
  }

  /** The start of the component that reaches to `at`. */
  lemma {:induction false} ComponentStart(path: string, at: nat) returns (i: nat)
    requires at <= |path|
    ensures i <= at && (i == 0 || path[i - 1] == '/') && forall k :: i <= k < at ==> path[k] != '/'
    decreases at
  {
    if at == 0 || path[at - 1] == '/' {
      i := at;
    } else {
      i := ComponentStart(path, at - 1);
    }
  }
}
