/** Orders and sorted containers.

    The engine leans on three library facilities whose behaviour decides its output order:
    lexicographic comparison, stable sorting, and key-ordered traversal of sets and maps.
    They are defined here once, together with the fact everything else rests on: a strictly
    sorted arrangement of given elements is unique. */
module Order {
  // A comparison is negative, zero or positive, like a three-way compare.

  ghost predicate Preorder<T(!new)>(cmp: (T, T) -> int) {
    && (forall a, b :: cmp(a, b) < 0 <==> cmp(b, a) > 0)
    && (forall a, b, c :: cmp(a, b) <= 0 && cmp(b, c) <= 0 ==> cmp(a, c) <= 0)
  }

  ghost predicate TotalOrder<T(!new)>(cmp: (T, T) -> int) {
    Preorder(cmp) && forall a, b :: cmp(a, b) == 0 <==> a == b
  }

  ghost predicate Sorted<T(!new)>(cmp: (T, T) -> int, s: seq<T>) {
    forall i, j :: 0 <= i < j < |s| ==> cmp(s[i], s[j]) <= 0
  }

  ghost predicate StrictlySorted<T(!new)>(cmp: (T, T) -> int, s: seq<T>) {
    forall i, j :: 0 <= i < j < |s| ==> cmp(s[i], s[j]) < 0
  }

  // ---- comparisons ----------------------------------------------------------------

  function CompareInts(a: int, b: int): int {
    a - b
  }

  function CompareBools(a: bool, b: bool): int {
    if a == b then 0 else if b then -1 else 1
  }

  function CompareChars(a: char, b: char): int {
    a as int - b as int
  }

  /** Lexicographic comparison: the first differing element decides, then the length. */
  function CompareSeqs<T>(cmp: (T, T) -> int, a: seq<T>, b: seq<T>): int {
    if a == [] then (if b == [] then 0 else -1)
    else if b == [] then 1
    else if cmp(a[0], b[0]) != 0 then cmp(a[0], b[0])
    else CompareSeqs(cmp, a[1..], b[1..])
  }

  function CompareStrings(a: string, b: string): int {
    CompareSeqs(CompareChars, a, b)
  }

  lemma {:induction false} SeqsCompareEqual<T(!new)>(cmp: (T, T) -> int, a: seq<T>, b: seq<T>)
    requires TotalOrder(cmp)
    ensures CompareSeqs(cmp, a, b) == 0 <==> a == b
  {
    if a != [] && b != [] {
      SeqsCompareEqual(cmp, a[1..], b[1..]);
      assert a == [a[0]] + a[1..] && b == [b[0]] + b[1..];
      assert cmp(a[0], b[0]) == 0 <==> a[0] == b[0];
    }
  }

  lemma {:induction false} SeqsCompareSigns<T(!new)>(cmp: (T, T) -> int, a: seq<T>, b: seq<T>)
    requires TotalOrder(cmp)
    ensures CompareSeqs(cmp, a, b) < 0 <==> CompareSeqs(cmp, b, a) > 0
  {
    if a != [] && b != [] {
      assert cmp(a[0], b[0]) < 0 <==> cmp(b[0], a[0]) > 0;
      assert cmp(b[0], a[0]) < 0 <==> cmp(a[0], b[0]) > 0;
      SeqsCompareSigns(cmp, a[1..], b[1..]);
    }
  }

  lemma {:induction false} SeqsCompareTransitive<T(!new)>(cmp: (T, T) -> int, a: seq<T>, b: seq<T>, c: seq<T>)
    requires TotalOrder(cmp)
    requires CompareSeqs(cmp, a, b) <= 0 && CompareSeqs(cmp, b, c) <= 0
    ensures CompareSeqs(cmp, a, c) <= 0
  {
    if a != [] && b != [] && c != [] {
      assert cmp(a[0], b[0]) <= 0 && cmp(b[0], c[0]) <= 0;
      if cmp(a[0], c[0]) == 0 {
        assert a[0] == c[0];
        assert cmp(a[0], b[0]) < 0 <==> cmp(b[0], a[0]) > 0;
        assert cmp(a[0], b[0]) == 0 && cmp(b[0], c[0]) == 0;
        SeqsCompareTransitive(cmp, a[1..], b[1..], c[1..]);
      }
    }
  }

  lemma StringsTotal()
    ensures TotalOrder(CompareStrings)
  {
    forall a: string, b: string
      ensures CompareStrings(a, b) == 0 <==> a == b
      ensures CompareStrings(a, b) < 0 <==> CompareStrings(b, a) > 0
    {
      SeqsCompareEqual(CompareChars, a, b);
      SeqsCompareSigns(CompareChars, a, b);
    }
    forall a: string, b: string, c: string | CompareStrings(a, b) <= 0 && CompareStrings(b, c) <= 0
      ensures CompareStrings(a, c) <= 0
    {
      SeqsCompareTransitive(CompareChars, a, b, c);
    }
  }

  /** `a` and `b` agree before `k`, where `a` has ended or has the smaller character. */
  predicate PartsBelow(a: string, b: string, k: nat) {
    && k <= |a| && k < |b| && a[..k] == b[..k]
    && (k == |a| || a[k] < b[k])
  }

  lemma PartsHead(a: string, b: string, k: nat)
    requires PartsBelow(a, b, k) && k > 0
    ensures a != [] && b != [] && a[0] == b[0]
  {
    assert a[..k][0] == b[..k][0];
  }

  /** Text is ordered by the first character at which it differs, a prefix before its extensions. */
  lemma {:induction false} CompareStringsMeans(a: string, b: string)
    ensures CompareStrings(a, b) < 0 <==> exists k: nat :: PartsBelow(a, b, k)
  {
    if a == [] {
      assert b != [] ==> PartsBelow(a, b, 0);
    } else if b != [] && a[0] == b[0] {
      var t, u := a[1..], b[1..];
      CompareStringsMeans(t, u);
      forall k: nat | PartsBelow(t, u, k) ensures PartsBelow(a, b, k + 1) {
        assert a[..k + 1] == [a[0]] + t[..k] && b[..k + 1] == [b[0]] + u[..k];
      }
      forall k: nat | PartsBelow(a, b, k) ensures k > 0 && PartsBelow(t, u, k - 1) {
        assert t[..k - 1] == a[..k][1..] && u[..k - 1] == b[..k][1..];
      }
    } else if b != [] {
      assert a[0] < b[0] ==> PartsBelow(a, b, 0);
      forall k: nat | PartsBelow(a, b, k) ensures k == 0 {
        if k > 0 { PartsHead(a, b, k); }
      }
    }
  }

  // ---- building comparisons ------------------------------------------------------------

  /** Compare through a projection. */
  function Via<T, U>(f: T -> U, cmp: (U, U) -> int): (T, T) -> int {
    (a, b) => cmp(f(a), f(b))
  }

  /** Compare by the first criterion, then by the second. */
  function Then<T>(first: (T, T) -> int, second: (T, T) -> int): (T, T) -> int {
    (a, b) => if first(a, b) != 0 then first(a, b) else second(a, b)
  }

  function Reversed<T>(cmp: (T, T) -> int): (T, T) -> int {
    (a, b) => cmp(b, a)
  }

  function SeqOrder<T>(cmp: (T, T) -> int): (seq<T>, seq<T>) -> int {
    (a, b) => CompareSeqs(cmp, a, b)
  }

  lemma ViaMeans<T(!new), U(!new)>(f: T -> U, cmp: (U, U) -> int, a: T, b: T)
    ensures Via(f, cmp)(a, b) == cmp(f(a), f(b))
  {
  }

  lemma ViaPreorder<T(!new), U(!new)>(f: T -> U, cmp: (U, U) -> int)
    requires Preorder(cmp)
    ensures Preorder(Via(f, cmp))
  {
  }

  lemma ThenPreorder<T(!new)>(first: (T, T) -> int, second: (T, T) -> int)
    requires Preorder(first) && Preorder(second)
    ensures Preorder(Then(first, second))
  {
  }

  lemma ReversedPreorder<T(!new)>(cmp: (T, T) -> int)
    requires Preorder(cmp)
    ensures Preorder(Reversed(cmp))
  {
  }

  lemma SeqOrderTotal<T(!new)>(cmp: (T, T) -> int)
    requires TotalOrder(cmp)
    ensures TotalOrder(SeqOrder(cmp))
  {
    forall a: seq<T>, b: seq<T>
      ensures SeqOrder(cmp)(a, b) == 0 <==> a == b
      ensures SeqOrder(cmp)(a, b) < 0 <==> SeqOrder(cmp)(b, a) > 0
    {
      SeqsCompareEqual(cmp, a, b);
      SeqsCompareSigns(cmp, a, b);
    }
    forall a: seq<T>, b: seq<T>, c: seq<T> | SeqOrder(cmp)(a, b) <= 0 && SeqOrder(cmp)(b, c) <= 0
      ensures SeqOrder(cmp)(a, c) <= 0
    {
      SeqsCompareTransitive(cmp, a, b, c);
    }
  }

  // ---- stable sorting ---------------------------------------------------------------

  function Insert<T>(cmp: (T, T) -> int, x: T, s: seq<T>): seq<T> {
    if s == [] || cmp(x, s[0]) <= 0 then [x] + s else [s[0]] + Insert(cmp, x, s[1..])
  }

  /** A stable sort: elements that compare equal keep their relative order. */
  function Sort<T>(cmp: (T, T) -> int, s: seq<T>): seq<T> {
    if s == [] then [] else Insert(cmp, s[0], Sort(cmp, s[1..]))
  }

  lemma {:induction false} InsertKeeps<T(!new)>(cmp: (T, T) -> int, x: T, s: seq<T>)
    ensures multiset(Insert(cmp, x, s)) == multiset(s) + multiset{x}
  {
    if s != [] && cmp(x, s[0]) > 0 {
      InsertKeeps(cmp, x, s[1..]);
      assert s == [s[0]] + s[1..];
    }
  }

  lemma {:induction false} InsertSorted<T(!new)>(cmp: (T, T) -> int, x: T, s: seq<T>)
    requires Preorder(cmp) && Sorted(cmp, s)
    ensures Sorted(cmp, Insert(cmp, x, s))
  {
    if s != [] {
      var r := Insert(cmp, x, s);
      if cmp(x, s[0]) <= 0 {
        forall j | 1 <= j < |r| ensures cmp(r[0], r[j]) <= 0 {
          assert r[j] == s[j - 1];
        }
        forall i, j | 0 <= i < j < |r| ensures cmp(r[i], r[j]) <= 0 {
          if i > 0 { assert r[i] == s[i - 1] && r[j] == s[j - 1]; }
        }
      } else {
        InsertSorted(cmp, x, s[1..]);
        var t := Insert(cmp, x, s[1..]);
        InsertKeeps(cmp, x, s[1..]);
        forall j | 0 <= j < |t| ensures cmp(s[0], t[j]) <= 0 {
          assert t[j] in multiset(t);
          if t[j] != x {
            assert t[j] in s[1..];
          }
        }
        assert r == [s[0]] + t;
      }
    }
  }

  lemma {:induction false} SortKeeps<T(!new)>(cmp: (T, T) -> int, s: seq<T>)
    ensures multiset(Sort(cmp, s)) == multiset(s)
    ensures |Sort(cmp, s)| == |s|
  {
    if s != [] {
      SortKeeps(cmp, s[1..]);
      InsertKeeps(cmp, s[0], Sort(cmp, s[1..]));
      assert s == [s[0]] + s[1..];
      assert |multiset(Sort(cmp, s))| == |multiset(s)|;
    }
  }

  lemma {:induction false} SortSorts<T(!new)>(cmp: (T, T) -> int, s: seq<T>)
    requires Preorder(cmp)
    ensures Sorted(cmp, Sort(cmp, s))
  {
    if s != [] {
      SortSorts(cmp, s[1..]);
      InsertSorted(cmp, s[0], Sort(cmp, s[1..]));
    }
  }

  /** The elements of `s` that tie with `x`, in their order. */
  function Ties<T>(cmp: (T, T) -> int, x: T, s: seq<T>): seq<T> {
    if s == [] then [] else (if cmp(x, s[0]) == 0 then [s[0]] else []) + Ties(cmp, x, s[1..])
  }

  lemma TiesCons<T>(cmp: (T, T) -> int, x: T, y: T, s: seq<T>)
    ensures Ties(cmp, x, [y] + s) == (if cmp(x, y) == 0 then [y] else []) + Ties(cmp, x, s)
  {
    assert ([y] + s)[1..] == s;
  }

  lemma {:induction false} InsertIsStable<T(!new)>(cmp: (T, T) -> int, x: T, y: T, s: seq<T>)
    requires Preorder(cmp)
    ensures Ties(cmp, x, Insert(cmp, y, s)) == (if cmp(x, y) == 0 then [y] else []) + Ties(cmp, x, s)
  {
    TiesCons(cmp, x, y, s);
    if s != [] && cmp(y, s[0]) > 0 {
      var rest := s[1..];
      InsertIsStable(cmp, x, y, rest);
      TiesCons(cmp, x, s[0], Insert(cmp, y, rest));
      TiesCons(cmp, x, s[0], rest);
      assert Insert(cmp, y, s) == [s[0]] + Insert(cmp, y, rest) && s == [s[0]] + rest;
      if cmp(x, y) == 0 { TiesApart(cmp, x, y, s[0]); }
      hide *;
    }
  }

  lemma TiesApart<T(!new)>(cmp: (T, T) -> int, x: T, y: T, z: T)
    requires Preorder(cmp) && cmp(x, y) == 0 && cmp(y, z) > 0
    ensures cmp(x, z) != 0
  {
    assert cmp(y, x) == 0 by {
      assert cmp(x, y) < 0 <==> cmp(y, x) > 0;
      assert cmp(y, x) < 0 <==> cmp(x, y) > 0;
    }
    assert cmp(y, x) <= 0 && cmp(x, z) <= 0 ==> cmp(y, z) <= 0;
  }

  /** Sorting is stable: elements that tie stay in the order they came in. */
  lemma {:induction false} SortIsStable<T(!new)>(cmp: (T, T) -> int, x: T, s: seq<T>)
    requires Preorder(cmp)
    ensures Ties(cmp, x, Sort(cmp, s)) == Ties(cmp, x, s)
  {
    if s != [] {
      SortIsStable(cmp, x, s[1..]);
      InsertIsStable(cmp, x, s[0], Sort(cmp, s[1..]));
    }
  }

  lemma HeadComesFirst<T(!new)>(cmp: (T, T) -> int, s: seq<T>, x: T)
    requires StrictlySorted(cmp, s) && x in s
    ensures x == s[0] || cmp(s[0], x) < 0
  {
  }

  lemma StrictHeads<T(!new)>(cmp: (T, T) -> int, a: seq<T>, b: seq<T>)
    requires Preorder(cmp) && StrictlySorted(cmp, a) && StrictlySorted(cmp, b)
    requires a != [] && b != [] && multiset(a) == multiset(b)
    ensures a[0] == b[0]
  {
    assert a[0] in multiset(b) && b[0] in multiset(a);
    assert cmp(a[0], b[0]) < 0 <==> cmp(b[0], a[0]) > 0;
    HeadComesFirst(cmp, a, b[0]);
    HeadComesFirst(cmp, b, a[0]);
  }

  lemma SameLength<T>(a: seq<T>, b: seq<T>)
    requires multiset(a) == multiset(b)
    ensures |a| == |b|
  {
    assert |a| == |multiset(a)| == |multiset(b)| == |b|;
  }

  /** A strictly sorted arrangement of a multiset is unique. */
  lemma {:induction false} StrictlySortedUnique<T(!new)>(cmp: (T, T) -> int, a: seq<T>, b: seq<T>)
    requires Preorder(cmp) && StrictlySorted(cmp, a) && StrictlySorted(cmp, b)
    requires multiset(a) == multiset(b)
    ensures a == b
  {
    SameLength(a, b);
    hide *;
    if a != [] {
      StrictHeads(cmp, a, b);
      SameTails(a, b);
      StrictTail(cmp, a);
      StrictTail(cmp, b);
      StrictlySortedUnique(cmp, a[1..], b[1..]);
      assert a == [a[0]] + a[1..] && b == [b[0]] + b[1..];
    }
  }

  lemma SameTails<T>(a: seq<T>, b: seq<T>)
    requires a != [] && b != [] && a[0] == b[0] && multiset(a) == multiset(b)
    ensures multiset(a[1..]) == multiset(b[1..])
  {
    TailMultiset(a);
    TailMultiset(b);
  }

  lemma TailMultiset<T>(s: seq<T>)
    requires s != []
    ensures multiset(s[1..]) == multiset(s) - multiset{s[0]}
  {
    assert s == [s[0]] + s[1..];
  }

  lemma StrictTail<T(!new)>(cmp: (T, T) -> int, s: seq<T>)
    requires s != [] && StrictlySorted(cmp, s)
    ensures StrictlySorted(cmp, s[1..])
  {
  }

  lemma StrictCons<T(!new)>(cmp: (T, T) -> int, x: T, s: seq<T>)
    requires StrictlySorted(cmp, s) && forall y :: y in s ==> cmp(x, y) < 0
    ensures StrictlySorted(cmp, [x] + s)
  {
  }

  /** No two positions of `s` compare equal. */
  ghost predicate PairwiseDistinct<T(!new)>(cmp: (T, T) -> int, s: seq<T>) {
    forall i, j :: 0 <= i < j < |s| ==> cmp(s[i], s[j]) != 0 && cmp(s[j], s[i]) != 0
  }

  /** Distinctness only depends on which elements occur, and how often. */
  lemma DistinctPermutes<T(!new)>(cmp: (T, T) -> int, a: seq<T>, b: seq<T>)
    requires multiset(a) == multiset(b) && PairwiseDistinct(cmp, a)
    requires forall x :: cmp(x, x) == 0
    ensures PairwiseDistinct(cmp, b)
  {
    forall i, j | 0 <= i < j < |b| ensures cmp(b[i], b[j]) != 0 && cmp(b[j], b[i]) != 0 {
      if b[i] == b[j] {
        var x := b[i];
        assert b == b[..j] + [b[j]] + b[j + 1..];
        assert x in b[..j];
        assert multiset(b)[x] >= 2;
        TwiceOccurs(a, x);
        assert false;
      } else {
        assert b[i] in multiset(a) && b[j] in multiset(a);
        var k :| 0 <= k < |a| && a[k] == b[i];
        var l :| 0 <= l < |a| && a[l] == b[j];
        assert k < l || l < k;
      }
    }
  }

  lemma {:induction false} TwiceOccurs<T(!new)>(s: seq<T>, x: T)
    requires multiset(s)[x] >= 2
    ensures exists k, l :: 0 <= k < l < |s| && s[k] == x && s[l] == x
  {
    assert s == [s[0]] + s[1..];
    if s[0] == x {
      assert x in multiset(s[1..]);
      var l :| 0 <= l < |s[1..]| && s[1..][l] == x;
      assert s[0] == x && s[l + 1] == x;
    } else {
      TwiceOccurs(s[1..], x);
      var k, l :| 0 <= k < l < |s[1..]| && s[1..][k] == x && s[1..][l] == x;
      assert s[k + 1] == x && s[l + 1] == x;
    }
  }

  lemma DistinctSortsStrictly<T(!new)>(cmp: (T, T) -> int, s: seq<T>)
    requires Preorder(cmp) && PairwiseDistinct(cmp, s)
    ensures StrictlySorted(cmp, Sort(cmp, s))
  {
    SortSorts(cmp, s);
    SortKeeps(cmp, s);
    forall x ensures cmp(x, x) == 0 {
      assert cmp(x, x) < 0 <==> cmp(x, x) > 0;
    }
    DistinctPermutes(cmp, s, Sort(cmp, s));
  }

  /** Sorting forgets the order of the input as soon as no two elements tie. */
  lemma SortForgetsOrder<T(!new)>(cmp: (T, T) -> int, a: seq<T>, b: seq<T>)
    requires Preorder(cmp) && PairwiseDistinct(cmp, a) && multiset(a) == multiset(b)
    ensures Sort(cmp, a) == Sort(cmp, b)
  {
    forall x ensures cmp(x, x) == 0 {
      assert cmp(x, x) < 0 <==> cmp(x, x) > 0;
    }
    DistinctPermutes(cmp, a, b);
    DistinctSortsStrictly(cmp, a);
    DistinctSortsStrictly(cmp, b);
    SortKeeps(cmp, a);
    SortKeeps(cmp, b);
    StrictlySortedUnique(cmp, Sort(cmp, a), Sort(cmp, b));
  }

  lemma SortedTail<T(!new)>(cmp: (T, T) -> int, s: seq<T>)
    requires s != [] && Sorted(cmp, s)
    ensures Sorted(cmp, s[1..])
  {
  }

  lemma SortedHead<T(!new)>(cmp: (T, T) -> int, s: seq<T>, x: T)
    requires TotalOrder(cmp) && Sorted(cmp, s) && x in s
    ensures cmp(s[0], x) <= 0
  {
    var i :| 0 <= i < |s| && s[i] == x;
    assert cmp(x, x) == 0;
  }

  lemma SortedHeadsAgree<T(!new)>(cmp: (T, T) -> int, a: seq<T>, b: seq<T>)
    requires TotalOrder(cmp) && Sorted(cmp, a) && Sorted(cmp, b)
    requires a != [] && b != [] && multiset(a) == multiset(b)
    ensures a[0] == b[0]
  {
    assert a[0] in multiset(b) && b[0] in multiset(a);
    SortedHead(cmp, a, b[0]);
    SortedHead(cmp, b, a[0]);
    assert cmp(a[0], b[0]) < 0 <==> cmp(b[0], a[0]) > 0;
    assert cmp(a[0], b[0]) == 0 <==> a[0] == b[0];
  }

  /** Under an order without ties between different elements a sorted arrangement is unique, repeats and all. */
  lemma {:induction false} SortedUnique<T(!new)>(cmp: (T, T) -> int, a: seq<T>, b: seq<T>)
    requires TotalOrder(cmp) && Sorted(cmp, a) && Sorted(cmp, b) && multiset(a) == multiset(b)
    ensures a == b
  {
    SameLength(a, b);
    hide *;
    if a != [] {
      SortedHeadsAgree(cmp, a, b);
      SameTails(a, b);
      SortedTail(cmp, a);
      SortedTail(cmp, b);
      SortedUnique(cmp, a[1..], b[1..]);
      assert a == [a[0]] + a[1..] && b == [b[0]] + b[1..];
    }
  }

  /** So sorting decides exactly which elements there are and how often. */
  lemma SortsAgree<T(!new)>(cmp: (T, T) -> int, a: seq<T>, b: seq<T>)
    requires TotalOrder(cmp)
    ensures Sort(cmp, a) == Sort(cmp, b) <==> multiset(a) == multiset(b)
  {
    SortKeeps(cmp, a);
    SortKeeps(cmp, b);
    SortSorts(cmp, a);
    SortSorts(cmp, b);
    hide Sorted, Sort;
    if multiset(a) == multiset(b) {
      SortedUnique(cmp, Sort(cmp, a), Sort(cmp, b));
    }
  }

  // ---- key-ordered traversal -----------------------------------------------------------

  predicate IsLeast<T(==)>(cmp: (T, T) -> int, s: set<T>, x: T) {
    x in s && forall y :: y in s ==> cmp(x, y) <= 0
  }

  lemma {:induction false} LeastExists<T(!new)>(cmp: (T, T) -> int, s: set<T>)
    requires Preorder(cmp) && s != {}
    ensures exists x :: IsLeast(cmp, s, x)
    decreases |s|
  {
    var e :| e in s;
    assert cmp(e, e) < 0 <==> cmp(e, e) > 0;
    var rest := s - {e};
    if rest == {} {
      assert s == {e};
      assert IsLeast(cmp, s, e);
    } else {
      LeastExists(cmp, rest);
      var m :| IsLeast(cmp, rest, m);
      if cmp(e, m) <= 0 {
        assert IsLeast(cmp, s, e);
      } else {
        assert cmp(m, e) < 0 <==> cmp(e, m) > 0;
        assert IsLeast(cmp, s, m);
      }
    }
  }

  /** The elements of a set in ascending order: the traversal of an ordered container. */
  function Ascending<T(==, !new)>(cmp: (T, T) -> int, s: set<T>): (r: seq<T>)
    requires TotalOrder(cmp)
  {
    if s == {} then []
    else
      LeastExists(cmp, s);
      assert forall x, y :: IsLeast(cmp, s, x) && IsLeast(cmp, s, y) ==> cmp(x, y) == 0 by {
        forall x, y | IsLeast(cmp, s, x) && IsLeast(cmp, s, y) ensures cmp(x, y) == 0 {
          assert cmp(x, y) < 0 <==> cmp(y, x) > 0;
        }
      }
      var x :| IsLeast(cmp, s, x);
      [x] + Ascending(cmp, s - {x})
  }

  lemma {:induction false} AscendingFacts<T(!new)>(cmp: (T, T) -> int, s: set<T>)
    requires TotalOrder(cmp)
    ensures forall x :: x in Ascending(cmp, s) <==> x in s
    ensures StrictlySorted(cmp, Ascending(cmp, s))
    ensures |Ascending(cmp, s)| == |s|
    decreases |s|
  {
    if s != {} {
      var r := Ascending(cmp, s);
      var rest := s - {r[0]};
      assert IsLeast(cmp, s, r[0]) && r == [r[0]] + Ascending(cmp, rest);
      AscendingFacts(cmp, rest);
      forall y | y in Ascending(cmp, rest) ensures cmp(r[0], y) < 0 {
        assert y in rest;
        assert cmp(r[0], y) == 0 <==> r[0] == y;
      }
      StrictCons(cmp, r[0], Ascending(cmp, rest));
    }
  }

  /** One step of the traversal: what remains is the ascending order of what is left. */
  lemma AscendingStep<T(!new)>(cmp: (T, T) -> int, s: set<T>, x: T)
    requires TotalOrder(cmp) && IsLeast(cmp, s, x)
    ensures Ascending(cmp, s) == [x] + Ascending(cmp, s - {x})
  {
  }

  function AscendingStrings(s: set<string>): seq<string> {
    StringsTotal();
    Ascending(CompareStrings, s)
  }

  /** The traversal determines the set. */
  lemma AscendingStringsAgree(a: set<string>, b: set<string>)
    ensures AscendingStrings(a) == AscendingStrings(b) <==> a == b
  {
    StringsTotal();
    AscendingFacts(CompareStrings, a);
    AscendingFacts(CompareStrings, b);
    hide CompareStrings, Ascending, TotalOrder;
    if AscendingStrings(a) == AscendingStrings(b) {
      assert forall x :: x in a <==> x in b;
    }
  }
}
