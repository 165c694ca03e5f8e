/** Python's `sorted` on a set of strings: by code point, then by length. */
module Sorting {

  predicate Below(a: string, b: string) {
    if a == [] then true
    else if b == [] then false
    else a[0] < b[0] || (a[0] == b[0] && Below(a[1..], b[1..]))
  }

  lemma {:induction false} BelowTotal(a: string, b: string)
    ensures Below(a, b) || Below(b, a)
    ensures Below(a, b) && Below(b, a) ==> a == b
  {
    if a != [] && b != [] {
      BelowTotal(a[1..], b[1..]);
      assert a == [a[0]] + a[1..] && b == [b[0]] + b[1..];
    }
  }

  lemma {:induction false} BelowTransitive(a: string, b: string, c: string)
    requires Below(a, b) && Below(b, c)
    ensures Below(a, c)
  {
    if a != [] && b != [] && c != [] && a[0] == b[0] == c[0] {
      BelowTransitive(a[1..], b[1..], c[1..]);
    }
  }

  predicate Least(m: string, s: set<string>) {
    m in s && forall x :: x in s ==> Below(m, x)
  }

  lemma {:induction false} HasLeast(s: set<string>)
    requires s != {}
    ensures exists m :: Least(m, s)
  {
    var x :| x in s;
    BelowTotal(x, x);
    if s == {x} {
      assert Least(x, s);
    } else {
      var rest := s - {x};
      assert s == rest + {x};
      HasLeast(rest);
      var m :| Least(m, rest);
      BelowTotal(x, m);
      if Below(m, x) {
        assert Least(m, s);
      } else {
        forall y | y in s ensures Below(x, y) {
          if y != x {
            BelowTransitive(x, m, y);
          }
        }
        assert Least(x, s);
      }
    }
  }

  lemma {:induction false} OneLeast(s: set<string>, a: string, b: string)
    requires Least(a, s) && Least(b, s)
    ensures a == b
  {
    BelowTotal(a, b);
  }

  function Minimum(s: set<string>): (m: string)
    requires s != {}
    ensures Least(m, s)
  {
    HasLeast(s);
    assert forall a, b :: Least(a, s) && Least(b, s) ==> a == b by {
      forall a, b | Least(a, s) && Least(b, s) ensures a == b {
        OneLeast(s, a, b);
      }
    }
    var m :| Least(m, s);
    m
  }

  function Sorted(s: set<string>): (r: seq<string>) {
    if s == {} then [] else [Minimum(s)] + Sorted(s - {Minimum(s)})
  }

  /** The list has exactly the set's members, each once, in increasing order. */
  lemma {:induction false} SortedMembers(s: set<string>)
    ensures forall x :: x in Sorted(s) <==> x in s
    ensures forall i, j :: 0 <= i < j < |Sorted(s)| ==> Below(Sorted(s)[i], Sorted(s)[j]) && Sorted(s)[i] != Sorted(s)[j]
  {
    hide Below;
    if s != {} {
      var m, rest := Minimum(s), Sorted(s - {Minimum(s)});
      SortedMembers(s - {m});
      assert Sorted(s) == [m] + rest;
      forall i, j | 0 <= i < j < |Sorted(s)|
        ensures Below(Sorted(s)[i], Sorted(s)[j]) && Sorted(s)[i] != Sorted(s)[j]
      {
        assert Sorted(s)[j] == rest[j - 1] && rest[j - 1] in rest;
        if i > 0 {
          assert Sorted(s)[i] == rest[i - 1];
        }
      }
    }
  }

  lemma {:induction false} SortedSize(s: set<string>)
    ensures |Sorted(s)| == |s|
  {
    hide Below;
    if s != {} {
      SortedSize(s - {Minimum(s)});
    }
  }
}
