/** Strings in order, and what sorting them twice tells. */
module Sorting {

  predicate Le(a: string, b: string) {
    a == [] || (b != [] && (a[0] < b[0] || (a[0] == b[0] && Le(a[1..], b[1..]))))
  }

  lemma {:induction false} LeTotal(a: string, b: string)
    ensures Le(a, b) || Le(b, a)
  {
    if a != [] && b != [] {
      LeTotal(a[1..], b[1..]);
    }
  }

  lemma {:induction false} LeAntisymmetric(a: string, b: string)
    requires Le(a, b) && Le(b, a)
    ensures a == b
  {
    if a != [] && b != [] {
      LeAntisymmetric(a[1..], b[1..]);
      assert a == [a[0]] + a[1..] && b == [b[0]] + b[1..];
    }
  }

  lemma {:induction false} LeTransitive(a: string, b: string, c: string)
    requires Le(a, b) && Le(b, c)
    ensures Le(a, c)
  {
    if a != [] && a[0] == b[0] && b[0] == c[0] {
      LeTransitive(a[1..], b[1..], c[1..]);
    }
  }

  predicate Sorted(s: seq<string>) {
    s == [] || ((forall x <- s[1..] :: Le(s[0], x)) && Sorted(s[1..]))
  }

  lemma HeadLeast(s: seq<string>, x: string)
    requires Sorted(s) && x in multiset(s)
    ensures s != [] && Le(s[0], x)
  {
    LeTotal(x, x);
  }

  lemma WithoutHead(s: seq<string>)
    requires s != []
    ensures multiset(s[1..]) == multiset(s) - multiset{s[0]}
  {
    assert s == [s[0]] + s[1..];
  }

  /** Two sorted sequences with the same elements are the same sequence. */
  lemma {:induction false} SortedUnique(a: seq<string>, b: seq<string>)
    requires Sorted(a) && Sorted(b) && multiset(a) == multiset(b)
    ensures a == b
  {
    assert |a| == |multiset(a)| == |multiset(b)| == |b|;
    if a != [] {
      HeadLeast(a, b[0]);
      HeadLeast(b, a[0]);
      LeAntisymmetric(a[0], b[0]);
      WithoutHead(a);
      WithoutHead(b);
      SortedUnique(a[1..], b[1..]);
      assert a == [a[0]] + a[1..] && b == [b[0]] + b[1..];
    }
  }

  function Insert(x: string, s: seq<string>): seq<string> {
    if s == [] then [x] else if Le(x, s[0]) then [x] + s else [s[0]] + Insert(x, s[1..])
  }

  lemma {:induction false} InsertSorted(x: string, s: seq<string>)
    ensures multiset(Insert(x, s)) == multiset(s) + multiset{x}
    ensures Sorted(s) ==> Sorted(Insert(x, s))
  {
    if s != [] {
      assert s == [s[0]] + s[1..];
      var rest := Insert(x, s[1..]);
      if Le(x, s[0]) {
        assert ([x] + s)[1..] == s;
        if Sorted(s) {
          forall y | y in s ensures Le(x, y) {
            HeadLeast(s, y);
            LeTransitive(x, s[0], y);
          }
        }
      } else {
        InsertSorted(x, s[1..]);
        LeTotal(x, s[0]);
        assert ([s[0]] + rest)[1..] == rest;
        forall y | y in rest ensures y == x || y in s[1..] {
          assert y in multiset(rest);
        }
      }
    }
  }

  /** sort.Strings. */
  function Sort(s: seq<string>): seq<string> {
    if s == [] then [] else Insert(s[0], Sort(s[1..]))
  }

  lemma {:induction false} SortSorts(s: seq<string>)
    ensures multiset(Sort(s)) == multiset(s) && Sorted(Sort(s))
  {
    if s != [] {
      SortSorts(s[1..]);
      InsertSorted(s[0], Sort(s[1..]));
      WithoutHead(s);
      assert multiset(s) == multiset(s[1..]) + multiset{s[0]};
    }
  }

  /** Sorting and comparing element by element decides equality of multisets. */
  lemma SortDecides(a: seq<string>, b: seq<string>)
    ensures Sort(a) == Sort(b) <==> multiset(a) == multiset(b)
  {
    SortSorts(a);
    SortSorts(b);
    if multiset(a) == multiset(b) {
      SortedUnique(Sort(a), Sort(b));
    }
  }

  // ---- Elements by an injective key ----

  function Mapped<T>(f: T -> string, s: seq<T>): (r: seq<string>)
    ensures |r| == |s| && forall i | 0 <= i < |s| :: r[i] == f(s[i])
  {
    seq(|s|, i requires 0 <= i < |s| => f(s[i]))
  }

  predicate TellsApart<T(==)>(f: T -> string, s: seq<T>, x: T) {
    forall y <- s :: f(y) == f(x) ==> y == x
  }

  lemma {:induction false} MappedCount<T>(f: T -> string, s: seq<T>, x: T)
    requires TellsApart(f, s, x)
    ensures multiset(Mapped(f, s))[f(x)] == multiset(s)[x]
  {
    if s != [] {
      MappedCount(f, s[1..], x);
      assert s == [s[0]] + s[1..];
      assert Mapped(f, s) == [f(s[0])] + Mapped(f, s[1..]);
    }
  }

  lemma MappedFollows<T>(f: T -> string, a: seq<T>, b: seq<T>, k: string)
    requires multiset(a) == multiset(b) && forall x <- a :: TellsApart(f, a, x)
    ensures multiset(Mapped(f, a))[k] == multiset(Mapped(f, b))[k]
  {
    assert forall x <- b :: x in multiset(a);
    if i :| 0 <= i < |a| && f(a[i]) == k {
      MappedCount(f, a, a[i]);
      MappedCount(f, b, a[i]);
    } else {
      assert k !in Mapped(f, a);
      forall x | x in b ensures f(x) != k {
        assert x in multiset(a) && x in a;
      }
      assert k !in Mapped(f, b);
    }
  }

  /** Sorted keys decide equality of multisets when the key tells elements apart. */
  lemma KeysDecide<T>(f: T -> string, a: seq<T>, b: seq<T>)
    requires forall x <- a + b :: TellsApart(f, a, x) && TellsApart(f, b, x)
    ensures Sort(Mapped(f, a)) == Sort(Mapped(f, b)) <==> multiset(a) == multiset(b)
  {
    SortDecides(Mapped(f, a), Mapped(f, b));
    if multiset(a) == multiset(b) {
      forall k: string ensures multiset(Mapped(f, a))[k] == multiset(Mapped(f, b))[k] {
        MappedFollows(f, a, b, k);
      }
    } else if multiset(Mapped(f, a)) == multiset(Mapped(f, b)) {
      forall x: T ensures multiset(a)[x] == multiset(b)[x] {
        if x in a + b {
          MappedCount(f, a, x);
          MappedCount(f, b, x);
        }
      }
    }
  }
}
