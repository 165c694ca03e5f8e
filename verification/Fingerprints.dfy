/** Comparing two typed views key by key, and two semantic fingerprints family by family. */
module Fingerprints {
  import opened Sorting
  import T = TypedView

  // ----- typed_renderer_diff.compare -----

  datatype Kind = OnlyOld | OnlyNew | Identical | Renumbered | Different

  /** How two views stand to each other at a key that one of them has. */
  function KindOf(before: T.Blocks, after: T.Blocks, normalise: string -> string, key: string): Kind
    requires key in before || key in after
  {
    if key !in after then OnlyOld
    else if key !in before then OnlyNew
    else if before[key] == after[key] then Identical
    else if normalise(before[key]) == normalise(after[key]) then Renumbered
    else Different
  }

  datatype Report = Report(onlyOld: seq<string>, onlyNew: seq<string>, identical: seq<string>,
                           renumbered: seq<string>, different: seq<string>)

  function ListOf(r: Report, kind: Kind): seq<string> {
    match kind
    case OnlyOld => r.onlyOld
    case OnlyNew => r.onlyNew
    case Identical => r.identical
    case Renumbered => r.renumbered
    case Different => r.different
  }

  /** The keys of one kind, in the order of the list. */
  function OfKind(before: T.Blocks, after: T.Blocks, normalise: string -> string, kind: Kind, keys: seq<string>): seq<string>
    requires forall k :: k in keys ==> k in before || k in after
  {
    if keys == [] then []
    else
      OfKind(before, after, normalise, kind, keys[..|keys| - 1])
      + if KindOf(before, after, normalise, keys[|keys| - 1]) == kind then [keys[|keys| - 1]] else []
  }

  /** `compare`, on the paragraphs it has read */
  method Compare(before: T.Blocks, after: T.Blocks, normalise: string -> string) returns (r: Report)
    ensures r.onlyOld == Sorted(before.Keys - after.Keys) && r.onlyNew == Sorted(after.Keys - before.Keys)
    ensures var common := Sorted(before.Keys * after.Keys);
            && (forall k :: k in common ==> k in before || k in after)
            && r.identical == OfKind(before, after, normalise, Identical, common)
            && r.renumbered == OfKind(before, after, normalise, Renumbered, common)
            && r.different == OfKind(before, after, normalise, Different, common)
  {
    hide Sorted;
    var common := Sorted(before.Keys * after.Keys);
    SortedMembers(before.Keys * after.Keys);
    assert forall k :: k in common ==> k in before.Keys * after.Keys;
    assert forall k :: k in common ==> k in before && k in after;
    var same: seq<string>, churn: seq<string>, lost: seq<string> := [], [], [];
    for n := 0 to |common|
      invariant same == OfKind(before, after, normalise, Identical, common[..n])
      invariant churn == OfKind(before, after, normalise, Renumbered, common[..n])
      invariant lost == OfKind(before, after, normalise, Different, common[..n])
    {
      assert common[..n + 1][..n] == common[..n];
      var key := common[n];
      if before[key] == after[key] {
        same := same + [key];
      } else if normalise(before[key]) == normalise(after[key]) {
        churn := churn + [key];
      } else {
        lost := lost + [key];
      }
    }
    assert common[..|common|] == common;
    r := Report(Sorted(before.Keys - after.Keys), Sorted(after.Keys - before.Keys), same, churn, lost);
  }

  lemma {:induction false} OfKindMembers(before: T.Blocks, after: T.Blocks, normalise: string -> string, kind: Kind,
                                         keys: seq<string>)
    requires forall k :: k in keys ==> k in before || k in after
    ensures forall k :: k in OfKind(before, after, normalise, kind, keys) <==>
              k in keys && KindOf(before, after, normalise, k) == kind
  {
    hide KindOf;
    if keys != [] {
      OfKindMembers(before, after, normalise, kind, keys[..|keys| - 1]);
      assert keys == keys[..|keys| - 1] + [keys[|keys| - 1]];
    }
  }

  /** What `Compare` promises about its report. */
  ghost predicate IsReport(before: T.Blocks, after: T.Blocks, normalise: string -> string, r: Report) {
    && r.onlyOld == Sorted(before.Keys - after.Keys) && r.onlyNew == Sorted(after.Keys - before.Keys)
    && var common := Sorted(before.Keys * after.Keys);
       && (forall k :: k in common ==> k in before || k in after)
       && r.identical == OfKind(before, after, normalise, Identical, common)
       && r.renumbered == OfKind(before, after, normalise, Renumbered, common)
       && r.different == OfKind(before, after, normalise, Different, common)
  }

  /** The five lists part the keys of the two views: each key is in the list of its kind and in no other. */
  lemma {:induction false} ReportParts(before: T.Blocks, after: T.Blocks, normalise: string -> string, r: Report, key: string,
                                       kind: Kind)
    requires IsReport(before, after, normalise, r)
    ensures key in ListOf(r, kind) <==> (key in before || key in after) && KindOf(before, after, normalise, key) == kind
  {
    hide Sorted, OfKind;
    SortedMembers(before.Keys - after.Keys);
    SortedMembers(after.Keys - before.Keys);
    SortedMembers(before.Keys * after.Keys);
    var common := Sorted(before.Keys * after.Keys);
    OfKindMembers(before, after, normalise, Identical, common);
    OfKindMembers(before, after, normalise, Renumbered, common);
    OfKindMembers(before, after, normalise, Different, common);
  }

  /** The five lists on the bodies themselves. */
  lemma {:induction false} ReportExactly(before: T.Blocks, after: T.Blocks, normalise: string -> string, r: Report, key: string)
    requires IsReport(before, after, normalise, r)
    ensures key in r.onlyOld <==> key in before && key !in after
    ensures key in r.onlyNew <==> key !in before && key in after
    ensures key in r.identical <==> key in before && key in after && before[key] == after[key]
    ensures key in r.renumbered <==>
            key in before && key in after && before[key] != after[key] && normalise(before[key]) == normalise(after[key])
    ensures key in r.different <==> key in before && key in after && normalise(before[key]) != normalise(after[key])
  {
    hide Sorted, OfKind, IsReport;
    ReportParts(before, after, normalise, r, key, OnlyOld);
    ReportParts(before, after, normalise, r, key, OnlyNew);
    ReportParts(before, after, normalise, r, key, Identical);
    ReportParts(before, after, normalise, r, key, Renumbered);
    ReportParts(before, after, normalise, r, key, Different);
  }

  /** Nothing but identical keys is reported exactly when the two views are the same. */
  lemma {:induction false} CleanReport(before: T.Blocks, after: T.Blocks, normalise: string -> string, r: Report)
    requires IsReport(before, after, normalise, r)
    ensures r.onlyOld == [] && r.onlyNew == [] && r.renumbered == [] && r.different == [] <==> before == after
  {
    hide IsReport;
    forall key, kind
      ensures key in ListOf(r, kind) <==>
              (key in before || key in after) && KindOf(before, after, normalise, key) == kind
    {
      ReportParts(before, after, normalise, r, key, kind);
    }
    if r.onlyOld == [] && r.onlyNew == [] && r.renumbered == [] && r.different == [] {
      forall key | key in before || key in after ensures key in before && key in after && before[key] == after[key] {
        var kind := KindOf(before, after, normalise, key);
        assert key in ListOf(r, kind);
      }
      assert before.Keys == after.Keys;
    } else {
      var kind := if r.onlyOld != [] then OnlyOld else if r.onlyNew != [] then OnlyNew
                  else if r.renumbered != [] then Renumbered else Different;
      var key := ListOf(r, kind)[0];
      assert key in ListOf(r, kind);
      assert KindOf(before, after, normalise, key) == kind != Identical;
    }
  }

  // ----- projection_audit.compare_fingerprint -----

  type Family = map<string, string>

  datatype Drift = Drift(family: string, gone: seq<string>, added: seq<string>, moved: seq<string>)

  /** `fingerprint.get(family, {})` */
  function Of(fingerprint: map<string, Family>, family: string): Family {
    if family in fingerprint then fingerprint[family] else map[]
  }

  function Moved(a: Family, b: Family): set<string> {
    set k | k in a && k in b && a[k] != b[k]
  }

  function DriftOf(family: string, a: Family, b: Family): seq<Drift> {
    var gone, added, moved := Sorted(a.Keys - b.Keys), Sorted(b.Keys - a.Keys), Sorted(Moved(a, b));
    if gone == [] && added == [] && moved == [] then [] else [Drift(family, gone, added, moved)]
  }

  function Drifts(before: map<string, Family>, after: map<string, Family>, families: seq<string>): seq<Drift> {
    if families == [] then []
    else
      var last := families[|families| - 1];
      Drifts(before, after, families[..|families| - 1]) + DriftOf(last, Of(before, last), Of(after, last))
  }

  /** `compare_fingerprint`, with all the identities where the source keeps their numbers and three samples */
  method CompareFingerprint(before: map<string, Family>, after: map<string, Family>) returns (out: seq<Drift>)
    ensures out == Drifts(before, after, Sorted(before.Keys + after.Keys))
  {
    hide Sorted;
    var families := Sorted(before.Keys + after.Keys);
    out := [];
    for n := 0 to |families|
      invariant out == Drifts(before, after, families[..n])
    {
      assert families[..n + 1][..n] == families[..n];
      var a, b := Of(before, families[n]), Of(after, families[n]);
      var gone, added, moved := Sorted(a.Keys - b.Keys), Sorted(b.Keys - a.Keys), Sorted(Moved(a, b));
      if gone != [] || added != [] || moved != [] {
        out := out + [Drift(families[n], gone, added, moved)];
      }
    }
    assert families[..|families|] == families;
  }

  /** What a reported drift holds: exactly the identities that are gone, that are new, and that have moved. */
  lemma {:induction false} DriftExactly(before: map<string, Family>, after: map<string, Family>, families: seq<string>, d: Drift)
    requires d in Drifts(before, after, families)
    ensures d.family in families
    ensures var a, b := if d.family in before then before[d.family] else map[], if d.family in after then after[d.family] else map[];
            && (forall k :: k in d.gone <==> k in a && k !in b) && (forall k :: k in d.added <==> k in b && k !in a)
            && (forall k :: k in d.moved <==> k in a && k in b && a[k] != b[k])
  {
    hide Sorted;
    var init, last := families[..|families| - 1], families[|families| - 1];
    if d in Drifts(before, after, init) {
      DriftExactly(before, after, init, d);
    } else {
      var a, b := Of(before, last), Of(after, last);
      SortedMembers(a.Keys - b.Keys);
      SortedMembers(b.Keys - a.Keys);
      SortedMembers(Moved(a, b));
      assert d.family == last;
    }
  }

  lemma {:induction false} NoDriftOf(family: string, a: Family, b: Family)
    ensures DriftOf(family, a, b) == [] <==> a == b
  {
    hide Sorted;
    SortedMembers(a.Keys - b.Keys);
    SortedMembers(b.Keys - a.Keys);
    SortedMembers(Moved(a, b));
    if DriftOf(family, a, b) == [] {
      forall k ensures k in a <==> k in b {
        assert k !in Sorted(a.Keys - b.Keys) && k !in Sorted(b.Keys - a.Keys);
      }
      forall k | k in a ensures a[k] == b[k] {
        assert k !in Sorted(Moved(a, b));
      }
    } else if a == b {
      EmptyList(a.Keys - b.Keys);
      EmptyList(b.Keys - a.Keys);
      EmptyList(Moved(a, b));
    }
  }

  lemma {:induction false} EmptyList(s: set<string>)
    ensures s == {} <==> Sorted(s) == []
  {}

  lemma {:induction false} NoDrifts(before: map<string, Family>, after: map<string, Family>, families: seq<string>)
    ensures Drifts(before, after, families) == [] <==> forall f :: f in families ==> Of(before, f) == Of(after, f)
  {
    hide DriftOf, Of;
    if families != [] {
      var init, last := families[..|families| - 1], families[|families| - 1];
      NoDrifts(before, after, init);
      NoDriftOf(last, Of(before, last), Of(after, last));
      assert families == init + [last];
    }
  }

  /** The families that have an identity at all. */
  function Filled(fingerprint: map<string, Family>): map<string, Family> {
    map f | f in fingerprint && fingerprint[f] != map[] :: fingerprint[f]
  }

  /** No drift is reported exactly when the two fingerprints are equal, once families without identities are left out. */
  lemma {:induction false} NoDriftMeansEqual(before: map<string, Family>, after: map<string, Family>)
    ensures Drifts(before, after, Sorted(before.Keys + after.Keys)) == [] <==> Filled(before) == Filled(after)
  {
    hide Sorted, Drifts;
    var all := before.Keys + after.Keys;
    SortedMembers(all);
    NoDrifts(before, after, Sorted(all));
    SameFilled(before, after);
  }

  lemma {:induction false} SameFilled(before: map<string, Family>, after: map<string, Family>)
    ensures Filled(before) == Filled(after) <==>
            forall f :: f in before.Keys + after.Keys ==> Of(before, f) == Of(after, f)
  {
    var a, b := Filled(before), Filled(after);
    if a == b {
      forall f | f in before.Keys + after.Keys ensures Of(before, f) == Of(after, f) {
        assert f in a <==> f in b;
        if f in a {
          assert a[f] == b[f];
        }
      }
    }
    if forall f :: f in before.Keys + after.Keys ==> Of(before, f) == Of(after, f) {
      forall f ensures f in a <==> f in b {
        if f in before.Keys + after.Keys {
          assert Of(before, f) == Of(after, f);
        }
      }
      forall f | f in a ensures a[f] == b[f] {
        assert f in before.Keys + after.Keys;
      }
    }
  }

  /** Between fingerprints of the same families, as the audit always takes them, no drift means no difference. */
  lemma {:induction false} SameFamiliesNoDrift(before: map<string, Family>, after: map<string, Family>)
    requires before.Keys == after.Keys
    ensures Drifts(before, after, Sorted(before.Keys + after.Keys)) == [] <==> before == after
  {
    hide Sorted, Drifts;
    SortedMembers(before.Keys + after.Keys);
    NoDrifts(before, after, Sorted(before.Keys + after.Keys));
    if forall f :: f in before.Keys + after.Keys ==> Of(before, f) == Of(after, f) {
      forall f | f in before ensures before[f] == after[f] {
        assert f in before.Keys + after.Keys;
      }
    }
  }

  /** A family that is present but empty on one side and absent on the other is not reported. */
  lemma {:induction false} EmptyFamilyUnnoticed(family: string, rest: map<string, Family>)
    requires family !in rest
    ensures var before := rest[family := map[]];
            before != rest && Drifts(before, rest, Sorted(before.Keys + rest.Keys)) == []
  {
    hide Sorted, Drifts;
    var before := rest[family := map[]];
    NoDriftMeansEqual(before, rest);
    assert Filled(before) == Filled(rest);
    assert family in before && family !in rest;
  }
}
