/** The order in which the key-value store lists its keys: byte-wise
    lexicographic. For UTF-8 text that is the lexicographic order of the
    code points, which is the order used here on `string`. */
module KeyOrder {

  /** `a` comes before `b`, or is `b`. */
  predicate KeyLessEq(a: string, b: string) {
    a == [] || (b != [] && (a[0] < b[0] || (a[0] == b[0] && KeyLessEq(a[1..], b[1..]))))
  }

  lemma {:induction false} KeyReflexive(a: string)
    ensures KeyLessEq(a, a)
  {
    if a != [] {
      KeyReflexive(a[1..]);
    }
  }

  lemma {:induction false} KeyTotal(a: string, b: string)
    ensures KeyLessEq(a, b) || KeyLessEq(b, a)
  {
    if a != [] && b != [] && a[0] == b[0] {
      KeyTotal(a[1..], b[1..]);
    }
  }

  lemma {:induction false} KeyAntisymmetric(a: string, b: string)
    requires KeyLessEq(a, b) && KeyLessEq(b, a)
    ensures a == b
  {
    if a != [] && b != [] {
      KeyAntisymmetric(a[1..], b[1..]);
      assert a == [a[0]] + a[1..] && b == [b[0]] + b[1..];
    }
  }

  lemma {:induction false} KeyTransitive(a: string, b: string, c: string)
    requires KeyLessEq(a, b) && KeyLessEq(b, c)
    ensures KeyLessEq(a, c)
  {
    if a != [] && b != [] && c != [] && a[0] == b[0] && b[0] == c[0] {
      KeyTransitive(a[1..], b[1..], c[1..]);
    }
  }

  /** `m` is the smallest key of `s`. */
  predicate IsLeast(m: string, s: set<string>) {
    m in s && forall k :: k in s ==> KeyLessEq(m, k)
  }

  lemma {:induction false} LeastExists(s: set<string>)
    requires s != {}
    ensures exists m :: IsLeast(m, s)
    decreases |s|
  {
    var x :| x in s;
    if s != {x} {
      LeastExists(s - {x});
      var m :| IsLeast(m, s - {x});
      KeyTotal(x, m);
      if KeyLessEq(x, m) {
        forall k | k in s
          ensures KeyLessEq(x, k)
        {
          if k != x {
            KeyTransitive(x, m, k);
          } else {
            KeyReflexive(x);
          }
        }
        assert IsLeast(x, s);
      } else {
        assert IsLeast(m, s);
      }
    } else {
      KeyReflexive(x);
      assert IsLeast(x, s);
    }
  }

  lemma LeastUnique(m1: string, m2: string, s: set<string>)
    requires IsLeast(m1, s) && IsLeast(m2, s)
    ensures m1 == m2
  {
    KeyAntisymmetric(m1, m2);
  }

  /** The smallest key of a non-empty set. */
  ghost function Least(s: set<string>): (m: string)
    requires s != {}
    ensures IsLeast(m, s)
  {
    LeastExists(s);
    var m :| IsLeast(m, s);
    m
  }

  /** The keys of `s` in ascending order. */
  ghost function SortedKeys(s: set<string>): (r: seq<string>)
    decreases |s|
  {
    if s == {} then []
    else
      var m := Least(s);
      [m] + SortedKeys(s - {m})
  }

  /** `SortedKeys` lists each key of the set, and only those. */
  lemma {:induction false} SortedKeysMembers(s: set<string>)
    ensures |SortedKeys(s)| == |s|
    ensures forall k :: k in SortedKeys(s) <==> k in s
    decreases |s|
  {
    if s != {} {
      SortedKeysMembers(s - {Least(s)});
    }
  }

  lemma SortedKeysStep(s: set<string>)
    requires s != {}
    ensures SortedKeys(s) == [Least(s)] + SortedKeys(s - {Least(s)})
  {
  }

  /** `SortedKeys` ascends strictly: each key comes before every later one. */
  lemma {:induction false} SortedKeysAscending(s: set<string>, i: nat, j: nat)
    requires i < j < |SortedKeys(s)|
    ensures KeyLessEq(SortedKeys(s)[i], SortedKeys(s)[j]) && SortedKeys(s)[i] != SortedKeys(s)[j]
    decreases |s|
  {
    var m := Least(s);
    var rest := SortedKeys(s - {m});
    SortedKeysMembers(s - {m});
    if i == 0 {
      assert rest[j - 1] in s - {m};
    } else {
      SortedKeysAscending(s - {m}, i - 1, j - 1);
    }
  }

  /** Finds the smallest key of a non-empty set by one pass over it. */
  method LeastOf(s: set<string>) returns (m: string)
    requires s != {}
    ensures m == Least(s)
  {
    m :| m in s;
    var rest := s - {m};
    KeyReflexive(m);
    while rest != {}
      invariant rest <= s && m in s
      invariant forall k :: k in s - rest ==> KeyLessEq(m, k)
      decreases rest
    {
      var k :| k in rest;
      rest := rest - {k};
      KeyTotal(k, m);
      if !KeyLessEq(m, k) {
        forall j | j in s - rest
          ensures KeyLessEq(k, j)
        {
          if j != k {
            KeyTransitive(k, m, j);
          } else {
            KeyReflexive(k);
          }
        }
        m := k;
      }
    }
    LeastUnique(m, Least(s), s);
  }
}
