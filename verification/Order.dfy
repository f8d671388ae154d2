/** Byte-wise text order and sorting.

    Go's strings.Compare, PostgreSQL's "C" collation and SQLite's BINARY collation all compare
    text byte by byte. Strings are sequences of code points here; the order of UTF-8 bytes is the
    order of code points, so one lexicographic comparison stands for the three.
    slices.Sort, slices.SortFunc and slices.SortStableFunc are one stable insertion sort: where a
    caller uses the unstable sort, its order is antisymmetric and the result is unique. */
module Order {

  function Compare(a: string, b: string): (c: int)
    ensures -1 <= c <= 1
  {
    if a == [] && b == [] then 0
    else if a == [] then -1
    else if b == [] then 1
    else if a[0] < b[0] then -1
    else if a[0] > b[0] then 1
    else Compare(a[1..], b[1..])
  }

  predicate TextLe(a: string, b: string) { Compare(a, b) <= 0 }

  lemma CompareZero(a: string, b: string)
    ensures Compare(a, b) == 0 <==> a == b
  {
    if a != [] && b != [] && a[0] == b[0] {
      CompareZero(a[1..], b[1..]);
      assert a == [a[0]] + a[1..] && b == [b[0]] + b[1..];
    }
  }

  lemma CompareFlips(a: string, b: string)
    ensures Compare(a, b) == -Compare(b, a)
  {
  }

  lemma {:induction false} CompareChains(a: string, b: string, c: string)
    requires Compare(a, b) <= 0 && Compare(b, c) <= 0
    ensures Compare(a, c) <= 0
    ensures Compare(a, b) < 0 || Compare(b, c) < 0 ==> Compare(a, c) < 0
  {
    if a != [] && b != [] && c != [] && a[0] == b[0] == c[0] {
      CompareChains(a[1..], b[1..], c[1..]);
    }
  }

  ghost predicate Total<T(!new)>(le: (T, T) -> bool) {
    && (forall x, y :: le(x, y) || le(y, x))
    && (forall x, y, z :: le(x, y) && le(y, z) ==> le(x, z))
  }

  ghost predicate Antisymmetric<T(!new)>(le: (T, T) -> bool) {
    forall x, y :: le(x, y) && le(y, x) ==> x == y
  }

  lemma TextOrder()
    ensures Total(TextLe) && Antisymmetric(TextLe)
  {
    forall x: string, y: string
      ensures TextLe(x, y) || TextLe(y, x)
      ensures TextLe(x, y) && TextLe(y, x) ==> x == y
    {
      CompareFlips(x, y);
      CompareZero(x, y);
    }
    forall x: string, y: string, z: string | TextLe(x, y) && TextLe(y, z) ensures TextLe(x, z) {
      CompareChains(x, y, z);
    }
  }

  predicate Sorted<T>(le: (T, T) -> bool, s: seq<T>) {
    forall i, j | 0 <= i < j < |s| :: le(s[i], s[j])
  }

  /** x goes in front of the first element it may precede. */
  function Insert<T>(le: (T, T) -> bool, x: T, s: seq<T>): seq<T> {
    if s == [] then [x]
    else if le(x, s[0]) then [x] + s
    else [s[0]] + Insert(le, x, s[1..])
  }

  function Sort<T>(le: (T, T) -> bool, s: seq<T>): seq<T> {
    if s == [] then [] else Insert(le, s[0], Sort(le, s[1..]))
  }

  function Filter<T>(p: T -> bool, s: seq<T>): seq<T> {
    if s == [] then []
    else if p(s[0]) then [s[0]] + Filter(p, s[1..])
    else Filter(p, s[1..])
  }

  lemma {:induction false} InsertKeepsAll<T>(le: (T, T) -> bool, x: T, s: seq<T>)
    ensures multiset(Insert(le, x, s)) == multiset{x} + multiset(s)
    ensures |Insert(le, x, s)| == |s| + 1
  {
    if s != [] {
      assert s == [s[0]] + s[1..];
      if !le(x, s[0]) { InsertKeepsAll(le, x, s[1..]); }
    }
  }

  lemma {:induction false} InsertSorted<T(!new)>(le: (T, T) -> bool, x: T, s: seq<T>)
    requires Total(le) && Sorted(le, s)
    ensures Sorted(le, Insert(le, x, s))
  {
    if s != [] && !le(x, s[0]) {
      InsertSorted(le, x, s[1..]);
      var r := Insert(le, x, s[1..]);
      InsertKeepsAll(le, x, s[1..]);
      forall j | 0 <= j < |r| ensures le(s[0], r[j]) {
        assert r[j] in multiset(r);
        assert r[j] == x || r[j] in s[1..];
      }
    }
  }

  /** The sort returns a permutation of its input in order. */
  lemma {:induction false} SortCorrect<T(!new)>(le: (T, T) -> bool, s: seq<T>)
    requires Total(le)
    ensures Sorted(le, Sort(le, s))
    ensures multiset(Sort(le, s)) == multiset(s) && |Sort(le, s)| == |s|
  {
    if s != [] {
      SortCorrect(le, s[1..]);
      InsertSorted(le, s[0], Sort(le, s[1..]));
      InsertKeepsAll(le, s[0], Sort(le, s[1..]));
      assert s == [s[0]] + s[1..];
    }
  }

  lemma {:induction false} InsertStable<T>(le: (T, T) -> bool, p: T -> bool, x: T, s: seq<T>)
    requires forall y | y in s && p(x) && p(y) :: le(x, y)
    ensures Filter(p, Insert(le, x, s)) == (if p(x) then [x] else []) + Filter(p, s)
  {
    if s != [] && !le(x, s[0]) {
      InsertStable(le, p, x, s[1..]);
      var r := Insert(le, x, s[1..]);
      assert Insert(le, x, s)[0] == s[0] && Insert(le, x, s)[1..] == r;
      assert p(x) ==> !p(s[0]);
    } else {
      assert Insert(le, x, s)[0] == x && Insert(le, x, s)[1..] == s;
    }
  }

  /** Elements that tie keep their relative order: p selects elements that all tie. */
  lemma {:induction false} SortStable<T(!new)>(le: (T, T) -> bool, p: T -> bool, s: seq<T>)
    requires Total(le)
    requires forall x, y | p(x) && p(y) :: le(x, y)
    ensures Filter(p, Sort(le, s)) == Filter(p, s)
  {
    if s != [] {
      SortStable(le, p, s[1..]);
      InsertStable(le, p, s[0], Sort(le, s[1..]));
    }
  }

  lemma SameHead<T(!new)>(le: (T, T) -> bool, a: seq<T>, b: seq<T>)
    requires Antisymmetric(le) && a != [] && b != []
    requires Sorted(le, a) && Sorted(le, b) && a[0] in b && b[0] in a
    ensures a[0] == b[0]
  {
    var i :| 0 <= i < |a| && a[i] == b[0];
    var j :| 0 <= j < |b| && b[j] == a[0];
    if i != 0 && j != 0 {
      assert le(a[0], a[i]) && le(b[0], b[j]);
    }
  }

  /** Under an antisymmetric order the sorted arrangement of a bag is unique. */
  lemma {:induction false} SortedUnique<T(!new)>(le: (T, T) -> bool, a: seq<T>, b: seq<T>)
    requires Antisymmetric(le)
    requires Sorted(le, a) && Sorted(le, b) && multiset(a) == multiset(b)
    ensures a == b
  {
    assert |a| == |multiset(a)| == |b|;
    if a != [] {
      assert a[0] in multiset(b) && b[0] in multiset(a);
      SameHead(le, a, b);
      TailBag(a);
      TailBag(b);
      SortedTail(le, a);
      SortedTail(le, b);
      SortedUnique(le, a[1..], b[1..]);
      assert a == [a[0]] + a[1..] && b == [b[0]] + b[1..];
    }
  }

  lemma TailBag<T>(a: seq<T>)
    requires a != []
    ensures multiset(a[1..]) == multiset(a) - multiset{a[0]}
  {
    assert a == [a[0]] + a[1..];
  }

  lemma SortedTail<T>(le: (T, T) -> bool, a: seq<T>)
    requires Sorted(le, a) && a != []
    ensures Sorted(le, a[1..])
  {
  }

  /** Sorting forgets the order of its input. */
  lemma SortForgetsOrder<T(!new)>(le: (T, T) -> bool, a: seq<T>, b: seq<T>)
    requires Total(le) && Antisymmetric(le) && multiset(a) == multiset(b)
    ensures Sort(le, a) == Sort(le, b)
  {
    SortCorrect(le, a);
    SortCorrect(le, b);
    SortedUnique(le, Sort(le, a), Sort(le, b));
  }

  /** A sorted sequence is its own sort. */
  lemma {:induction false} SortIdempotent<T(!new)>(le: (T, T) -> bool, s: seq<T>)
    requires Total(le) && Sorted(le, s)
    ensures Sort(le, s) == s
  {
    if s != [] {
      SortIdempotent(le, s[1..]);
      if |s| > 1 { assert le(s[0], s[1]); }
      assert s == [s[0]] + s[1..];
    }
  }

  /** Two sequences that satisfy p and q position by position satisfy them together. */
  lemma Pointwise<A, B>(xs: seq<A>, ys: seq<B>, p: A -> bool, q: B -> bool)
    requires |xs| == |ys| && forall i | 0 <= i < |xs| :: p(xs[i]) == q(ys[i])
    ensures (forall x | x in xs :: p(x)) <==> (forall y | y in ys :: q(y))
    ensures (exists x | x in xs :: p(x)) <==> (exists y | y in ys :: q(y))
  {
    forall x | x in xs ensures exists y | y in ys :: p(x) == q(y) {
      var i :| 0 <= i < |xs| && xs[i] == x;
      assert ys[i] in ys;
    }
    forall y | y in ys ensures exists x | x in xs :: p(x) == q(y) {
      var i :| 0 <= i < |ys| && ys[i] == y;
      assert xs[i] in xs;
    }
  }

  lemma Twice<T>(s: seq<T>, i: nat, j: nat)
    requires i < j < |s|
    ensures s[i] == s[j] ==> multiset(s)[s[i]] >= 2
  {
    assert s == s[..j] + s[j..];
    assert s[i] == s[..j][i] && s[j] == s[j..][0];
    assert s[i] in multiset(s[..j]) && s[j] in multiset(s[j..]);
  }

  lemma TakeOut<T>(xs: seq<T>, j: nat)
    requires j < |xs|
    ensures multiset(xs) == multiset{xs[j]} + multiset(xs[..j] + xs[j + 1..])
  {
    assert xs == xs[..j] + [xs[j]] + xs[j + 1..];
  }

  /** a is b with some entries left out. */
  predicate Subsequence<T(==)>(a: seq<T>, b: seq<T>) {
    if a == [] then true
    else if b == [] then false
    else (a[0] == b[0] && Subsequence(a[1..], b[1..])) || Subsequence(a, b[1..])
  }

  /** Where the entries of a stand in b, in order. */
  lemma {:induction false} SubsequencePlaces<T>(a: seq<T>, b: seq<T>) returns (ps: seq<nat>)
    requires Subsequence(a, b)
    ensures |ps| == |a| && (forall i | 0 <= i < |ps| :: ps[i] < |b| && b[ps[i]] == a[i])
    ensures forall i, j | 0 <= i < j < |ps| :: ps[i] < ps[j]
  {
    ps := [];
    if a != [] {
      var rest: seq<nat>;
      var met := a[0] == b[0] && Subsequence(a[1..], b[1..]);
      if met { rest := SubsequencePlaces(a[1..], b[1..]); } else { rest := SubsequencePlaces(a, b[1..]); }
      var later := seq(|rest|, i requires 0 <= i < |rest| => rest[i] + 1);
      ps := if met then [0] + later else later;
    }
  }

  lemma {:induction false} SubsequenceChains<T>(a: seq<T>, b: seq<T>, c: seq<T>)
    requires Subsequence(a, b) && Subsequence(b, c)
    ensures Subsequence(a, c)
    decreases |c|
  {
    if a != [] && b != [] && c != [] {
      if b[0] == c[0] && Subsequence(b[1..], c[1..]) {
        if a[0] == b[0] && Subsequence(a[1..], b[1..]) {
          SubsequenceChains(a[1..], b[1..], c[1..]);
        } else {
          SubsequenceChains(a, b[1..], c[1..]);
        }
      } else {
        SubsequenceChains(a, b, c[1..]);
      }
    }
  }

  lemma {:induction false} FilterSubsequence<T>(p: T -> bool, s: seq<T>)
    ensures Subsequence(Filter(p, s), s)
  {
    if s != [] {
      FilterSubsequence(p, s[1..]);
      if p(s[0]) { assert Filter(p, s)[1..] == Filter(p, s[1..]); }
    }
  }

  lemma {:induction false} FilterMembers<T>(p: T -> bool, s: seq<T>)
    ensures forall x :: x in Filter(p, s) <==> x in s && p(x)
  {
    if s != [] { FilterMembers(p, s[1..]); }
  }

  lemma {:induction false} FilterOneMore<T>(p: T -> bool, s: seq<T>, x: T)
    ensures Filter(p, s + [x]) == Filter(p, s) + if p(x) then [x] else []
  {
    if s == [] {
      assert [x][1..] == [];
    } else {
      assert (s + [x])[1..] == s[1..] + [x];
      FilterOneMore(p, s[1..], x);
    }
  }
}
