/**
 Orderings used by the control plane: strings compare by code point, paths and
 tuples lexicographically. `Sort` is the stable sort every caller uses.
 */
module Orders {

  ghost predicate Preorder<T(!new)>(leq: (T, T) -> bool) {
    && (forall x, y :: leq(x, y) || leq(y, x))
    && (forall x, y, z :: leq(x, y) && leq(y, z) ==> leq(x, z))
  }

  ghost predicate TotalOrder<T(!new)>(leq: (T, T) -> bool) {
    && Preorder(leq)
    && (forall x, y :: leq(x, y) && leq(y, x) ==> x == y)
  }

  predicate LexLeq<T(==)>(leq: (T, T) -> bool, a: seq<T>, b: seq<T>) {
    if a == [] then true
    else if b == [] then false
    else if a[0] == b[0] then LexLeq(leq, a[1..], b[1..])
    else leq(a[0], b[0])
  }

  predicate CharLeq(a: char, b: char) { a <= b }

  predicate StringLeq(a: string, b: string) { LexLeq(CharLeq, a, b) }

  predicate PathLeq(a: seq<string>, b: seq<string>) { LexLeq(StringLeq, a, b) }

  /** One sequence begins the other, or they first differ where the elements are in order. */
  lemma {:induction false} LexLeqIff<T>(leq: (T, T) -> bool, a: seq<T>, b: seq<T>)
    ensures LexLeq(leq, a, b) <==> a <= b || exists i :: DiffersAt(a, b, i) && leq(a[i], b[i])
  {
    if a != [] && b != [] {
      if a[0] == b[0] {
        LexLeqIff(leq, a[1..], b[1..]);
        assert a == [a[0]] + a[1..] && b == [b[0]] + b[1..];
        forall i ensures DiffersAt(a, b, i) <==> DiffersAt(a[1..], b[1..], i - 1) {
          if 0 < i < |a| && i < |b| {
            assert a[..i] == [a[0]] + a[1..][..i - 1] && b[..i] == [b[0]] + b[1..][..i - 1];
          }
        }
        if i :| DiffersAt(a[1..], b[1..], i) && leq(a[1..][i], b[1..][i]) {
          assert DiffersAt(a, b, i + 1);
        }
        if i :| DiffersAt(a, b, i) && leq(a[i], b[i]) {
          assert DiffersAt(a[1..], b[1..], i - 1);
        }
      } else {
        assert forall i :: DiffersAt(a, b, i) ==> i == 0;
        assert DiffersAt(a, b, 0);
      }
    }
  }

  /** The first difference of the two is at `i`. */
  predicate DiffersAt<T(==)>(a: seq<T>, b: seq<T>, i: int) {
    0 <= i < |a| && i < |b| && a[..i] == b[..i] && a[i] != b[i]
  }

  lemma StringLeqIff(a: string, b: string)
    ensures StringLeq(a, b) <==> a <= b || exists i :: DiffersAt(a, b, i) && a[i] < b[i]
  {
    LexLeqIff(CharLeq, a, b);
  }

  lemma {:induction false} LexTotal<T(!new)>(leq: (T, T) -> bool, a: seq<T>, b: seq<T>)
    requires TotalOrder(leq)
    ensures LexLeq(leq, a, b) || LexLeq(leq, b, a)
    ensures LexLeq(leq, a, b) && LexLeq(leq, b, a) ==> a == b
  {
    if a != [] && b != [] && a[0] == b[0] {
      LexTotal(leq, a[1..], b[1..]);
      assert a == [a[0]] + a[1..] && b == [b[0]] + b[1..];
    }
  }

  lemma {:induction false} LexTransitive<T(!new)>(leq: (T, T) -> bool, a: seq<T>, b: seq<T>, c: seq<T>)
    requires TotalOrder(leq)
    requires LexLeq(leq, a, b) && LexLeq(leq, b, c)
    ensures LexLeq(leq, a, c)
  {
    if a != [] && b != [] && c != [] && a[0] == b[0] && b[0] == c[0] {
      LexTransitive(leq, a[1..], b[1..], c[1..]);
    }
  }

  lemma LexIsTotalOrder<T(!new)>(leq: (T, T) -> bool)
    requires TotalOrder(leq)
    ensures TotalOrder((a: seq<T>, b: seq<T>) => LexLeq(leq, a, b))
  {
    forall a: seq<T>, b: seq<T> ensures LexLeq(leq, a, b) || LexLeq(leq, b, a)
      ensures LexLeq(leq, a, b) && LexLeq(leq, b, a) ==> a == b
    {
      LexTotal(leq, a, b);
    }
    forall a: seq<T>, b: seq<T>, c: seq<T> | LexLeq(leq, a, b) && LexLeq(leq, b, c)
      ensures LexLeq(leq, a, c)
    {
      LexTransitive(leq, a, b, c);
    }
  }

  lemma StringOrder()
    ensures TotalOrder(StringLeq)
  {
    LexIsTotalOrder(CharLeq);
    var lex := (a: string, b: string) => LexLeq(CharLeq, a, b);
    assert forall a, b :: StringLeq(a, b) == lex(a, b);
  }

  lemma PathOrder()
    ensures TotalOrder(PathLeq)
  {
    StringOrder();
    LexIsTotalOrder(StringLeq);
    var lex := (a: seq<string>, b: seq<string>) => LexLeq(StringLeq, a, b);
    assert forall a, b :: PathLeq(a, b) == lex(a, b);
  }

  // ----- sorting

  ghost predicate Sorted<T(!new)>(leq: (T, T) -> bool, s: seq<T>) {
    forall i, j :: 0 <= i < j < |s| ==> leq(s[i], s[j])
  }

  function Insert<T>(leq: (T, T) -> bool, x: T, s: seq<T>): (r: seq<T>)
    ensures multiset(r) == multiset{x} + multiset(s)
  {
    if s == [] then [x]
    else if leq(x, s[0]) then [x] + s
    else
      assert s == [s[0]] + s[1..];
      [s[0]] + Insert(leq, x, s[1..])
  }

  function Sort<T>(leq: (T, T) -> bool, s: seq<T>): (r: seq<T>)
    ensures multiset(r) == multiset(s)
  {
    if s == [] then []
    else
      assert s == [s[0]] + s[1..];
      Insert(leq, s[0], Sort(leq, s[1..]))
  }

  lemma SameElements<T>(a: seq<T>, b: seq<T>)
    requires multiset(a) == multiset(b)
    ensures |a| == |b|
    ensures forall x :: x in a <==> x in b
  {
    assert |a| == |multiset(a)| && |b| == |multiset(b)|;
    assert forall x :: x in a <==> x in multiset(a);
    assert forall x :: x in b <==> x in multiset(b);
  }

  lemma {:induction false} InsertSorted<T(!new)>(leq: (T, T) -> bool, x: T, s: seq<T>)
    requires Preorder(leq) && Sorted(leq, s)
    ensures Sorted(leq, Insert(leq, x, s))
  {
    if s != [] && !leq(x, s[0]) {
      InsertSorted(leq, x, s[1..]);
      var rest := Insert(leq, x, s[1..]);
      SameElements(rest, [x] + s[1..]);
      forall y | y in rest ensures leq(s[0], y) {
        assert y == x || y in s[1..];
      }
    }
  }

  lemma {:induction false} SortSorted<T(!new)>(leq: (T, T) -> bool, s: seq<T>)
    requires Preorder(leq)
    ensures Sorted(leq, Sort(leq, s))
  {
    if s != [] {
      SortSorted(leq, s[1..]);
      InsertSorted(leq, s[0], Sort(leq, s[1..]));
    }
  }

  lemma FirstIsLeast<T(!new)>(leq: (T, T) -> bool, s: seq<T>, x: T)
    requires Preorder(leq) && Sorted(leq, s) && x in s
    ensures leq(s[0], x)
  {
    assert leq(x, x);
  }

  lemma TailSorted<T(!new)>(leq: (T, T) -> bool, s: seq<T>)
    requires Sorted(leq, s) && s != []
    ensures Sorted(leq, s[1..])
  {
  }

  lemma TailMultiset<T>(s: seq<T>)
    requires s != []
    ensures multiset(s[1..]) == multiset(s) - multiset{s[0]}
  {
    assert s == [s[0]] + s[1..];
  }

  lemma FirstSame<T(!new)>(leq: (T, T) -> bool, a: seq<T>, b: seq<T>)
    requires TotalOrder(leq) && Sorted(leq, a) && Sorted(leq, b)
    requires a != [] && b != [] && forall x :: x in a <==> x in b
    ensures a[0] == b[0]
  {
    assert a[0] in b && b[0] in a;
    FirstIsLeast(leq, a, b[0]);
    FirstIsLeast(leq, b, a[0]);
  }

  /** Over a total order a sorted arrangement of given elements is unique. */
  lemma {:induction false} SortedUnique<T(!new)>(leq: (T, T) -> bool, a: seq<T>, b: seq<T>)
    requires TotalOrder(leq) && Sorted(leq, a) && Sorted(leq, b)
    requires multiset(a) == multiset(b)
    ensures a == b
  {
    SameElements(a, b);
    if a != [] {
      FirstSame(leq, a, b);
      TailSorted(leq, a);
      TailSorted(leq, b);
      TailMultiset(a);
      TailMultiset(b);
      SortedUnique(leq, a[1..], b[1..]);
      assert a == [a[0]] + a[1..] && b == [b[0]] + b[1..];
    }
  }}
