/** Python's `list.sort(key=..., reverse=True)`: a stable sort into
    non-increasing key order, written as insertion sort over a comparison
    `geq` ("the key of a is at least the key of b"). */
module Sorting {

  /** `geq` is total and transitive, as `>=` on keys is. */
  ghost predicate TotalPreorder<T(!new)>(geq: (T, T) -> bool) {
    && (forall a, b :: geq(a, b) || geq(b, a))
    && (forall a, b, c :: geq(a, b) && geq(b, c) ==> geq(a, c))
  }

  ghost predicate SortedDesc<T>(s: seq<T>, geq: (T, T) -> bool) {
    forall i, j :: 0 <= i < j < |s| ==> geq(s[i], s[j])
  }

  /** Inserts `x` after every element of `s` that is at least `x`. */
  function Insert<T(!new)>(x: T, s: seq<T>, geq: (T, T) -> bool): (r: seq<T>)
    requires TotalPreorder(geq) && SortedDesc(s, geq)
    ensures SortedDesc(r, geq)
    ensures multiset(r) == multiset(s) + multiset{x}
    ensures |r| == |s| + 1
    decreases |s|, 0
  {
    if s == [] then [x]
    else if geq(s[0], x) then
      assert s == [s[0]] + s[1..];
      InsertBelow(s[0], x, s[1..], geq);
      [s[0]] + Insert(x, s[1..], geq)
    else [x] + s
  }

  /** An element at least `x` and everything in `s` can go in front of
      `x` inserted into `s`. */
  lemma InsertBelow<T(!new)>(y: T, x: T, s: seq<T>, geq: (T, T) -> bool)
    requires TotalPreorder(geq) && SortedDesc(s, geq)
    requires geq(y, x) && forall k :: 0 <= k < |s| ==> geq(y, s[k])
    ensures SortedDesc([y] + Insert(x, s, geq), geq)
    decreases |s|, 1
  {
    var t := Insert(x, s, geq);
    forall k | 0 <= k < |t| ensures geq(y, t[k]) {
      assert t[k] in multiset(t);
      assert t[k] == x || t[k] in s;
    }
  }

  /** The elements of `s` in non-increasing order; elements that compare
      equal keep their relative order. */
  function SortDesc<T(!new)>(s: seq<T>, geq: (T, T) -> bool): (r: seq<T>)
    requires TotalPreorder(geq)
    ensures SortedDesc(r, geq)
    ensures multiset(r) == multiset(s) && |r| == |s|
  {
    if s == [] then []
    else
      assert s == s[..|s| - 1] + [s[|s| - 1]];
      Insert(s[|s| - 1], SortDesc(s[..|s| - 1], geq), geq)
  }

  /** `a` and `b` have equal keys. */
  predicate Tied<T>(a: T, b: T, geq: (T, T) -> bool) {
    geq(a, b) && geq(b, a)
  }

  /** `[e]` when `e` is tied with `x`, otherwise nothing. */
  function TieOf<T>(e: T, x: T, geq: (T, T) -> bool): seq<T> {
    if Tied(e, x, geq) then [e] else []
  }

  /** The elements of `s` whose key equals that of `x`, in their order
      in `s`. */
  function TiesWith<T>(s: seq<T>, x: T, geq: (T, T) -> bool): seq<T> {
    if s == [] then [] else TieOf(s[0], x, geq) + TiesWith(s[1..], x, geq)
  }

  lemma {:induction false} TiesWithConcat<T>(a: seq<T>, b: seq<T>, x: T, geq: (T, T) -> bool)
    ensures TiesWith(a + b, x, geq) == TiesWith(a, x, geq) + TiesWith(b, x, geq)
  {
    if a == [] {
      assert a + b == b;
    } else {
      var h, t := TieOf(a[0], x, geq), TiesWith(a[1..], x, geq);
      assert a + b != [] && (a + b)[0] == a[0] && (a + b)[1..] == a[1..] + b;
      TiesWithConcat(a[1..], b, x, geq);
      calc {
        TiesWith(a + b, x, geq);
        h + TiesWith(a[1..] + b, x, geq);
        h + (t + TiesWith(b, x, geq));
        { SeqAssoc(h, t, TiesWith(b, x, geq)); }
        (h + t) + TiesWith(b, x, geq);
      }
    }
  }

  lemma SeqAssoc<T>(a: seq<T>, b: seq<T>, c: seq<T>)
    ensures a + (b + c) == (a + b) + c
  {
  }

  lemma {:induction false} TiesWithNone<T>(s: seq<T>, x: T, geq: (T, T) -> bool)
    requires forall k :: 0 <= k < |s| ==> !Tied(s[k], x, geq)
    ensures TiesWith(s, x, geq) == []
  {
    if s != [] {
      TiesWithNone(s[1..], x, geq);
    }
  }

  /** Every tie of `x` in `s` is an element of `s`. */
  lemma {:induction false} TiesWithIn<T>(s: seq<T>, x: T, geq: (T, T) -> bool)
    ensures forall e :: e in TiesWith(s, x, geq) ==> e in s && Tied(e, x, geq)
  {
    if s != [] {
      TiesWithIn(s[1..], x, geq);
    }
  }

  /** Inserting `y` into a sorted sequence puts it after every element of
      equal key. */
  lemma {:induction false} InsertKeepsTies<T(!new)>(y: T, s: seq<T>, x: T, geq: (T, T) -> bool)
    requires TotalPreorder(geq) && SortedDesc(s, geq)
    ensures TiesWith(Insert(y, s, geq), x, geq) == TiesWith(s, x, geq) + TiesWith([y], x, geq)
  {
    if s != [] {
      InsertCases(y, s, geq);
      if geq(s[0], y) {
        InsertKeepsTies(y, s[1..], x, geq);
        TiesBehindHead(s[0], s[1..], s, Insert(y, s[1..], geq), Insert(y, s, geq), TiesWith([y], x, geq), x, geq);
      } else {
        TiesInFront(y, s, Insert(y, s, geq), x, geq);
      }
    }
  }

  /** `y` put in front of a sorted sequence whose head it beats: no tie of
      `y` is behind it, so the ties read the same with `y` last. */
  lemma TiesInFront<T(!new)>(y: T, s: seq<T>, r: seq<T>, x: T, geq: (T, T) -> bool)
    requires TotalPreorder(geq) && SortedDesc(s, geq)
    requires s != [] && !geq(s[0], y) && r == [y] + s
    ensures TiesWith(r, x, geq) == TiesWith(s, x, geq) + TiesWith([y], x, geq)
  {
    TiesWithConcat([y], s, x, geq);
    if Tied(y, x, geq) {
      NoTiesBelow(y, s, x, geq);
    }
  }

  /** One step of `Insert`: behind the head when the head is at least `y`,
      otherwise in front of everything. */
  lemma InsertCases<T(!new)>(y: T, s: seq<T>, geq: (T, T) -> bool)
    requires TotalPreorder(geq) && SortedDesc(s, geq) && s != []
    ensures SortedDesc(s[1..], geq) && s == [s[0]] + s[1..]
    ensures geq(s[0], y) ==> Insert(y, s, geq) == [s[0]] + Insert(y, s[1..], geq)
    ensures !geq(s[0], y) ==> Insert(y, s, geq) == [y] + s
  {
  }

  /** Putting the same head in front of two sequences keeps a relation
      between their ties. */
  lemma TiesBehindHead<T>(h: T, t: seq<T>, s: seq<T>, rest: seq<T>, r: seq<T>, c: seq<T>, x: T, geq: (T, T) -> bool)
    requires s == [h] + t && r == [h] + rest
    requires TiesWith(rest, x, geq) == TiesWith(t, x, geq) + c
    ensures TiesWith(r, x, geq) == TiesWith(s, x, geq) + c
  {
    TiesWithConcat([h], rest, x, geq);
    TiesWithConcat([h], t, x, geq);
    SeqAssoc(TiesWith([h], x, geq), TiesWith(t, x, geq), c);
  }


  /** Below an element that `y` beats there is nothing tied with `y`. */
  lemma NoTiesBelow<T(!new)>(y: T, s: seq<T>, x: T, geq: (T, T) -> bool)
    requires TotalPreorder(geq) && SortedDesc(s, geq)
    requires s != [] && !geq(s[0], y) && Tied(y, x, geq)
    ensures TiesWith(s, x, geq) == []
  {
    forall k | 0 <= k < |s|
      ensures !Tied(s[k], x, geq)
    {
      if k > 0 {
        assert geq(s[0], s[k]);
      }
    }
    TiesWithNone(s, x, geq);
  }

  /** `SortDesc` is stable: the elements of any one key come out in the
      order they went in. */
  lemma {:induction false} SortDescIsStable<T(!new)>(s: seq<T>, x: T, geq: (T, T) -> bool)
    requires TotalPreorder(geq)
    ensures TiesWith(SortDesc(s, geq), x, geq) == TiesWith(s, x, geq)
  {
    if s != [] {
      var init, last := s[..|s| - 1], s[|s| - 1];
      SortDescIsStable(init, x, geq);
      InsertKeepsTies(last, SortDesc(init, geq), x, geq);
      assert s == init + [last];
      TiesWithConcat(init, [last], x, geq);
    }
  }

  /** The `k`-th element of `s`, when tied with `x`, sits in the ties of
      `x` after the ties that come before it in `s`. */
  lemma TiesWithAt<T>(s: seq<T>, x: T, geq: (T, T) -> bool, k: nat)
    requires k < |s| && Tied(s[k], x, geq)
    ensures |TiesWith(s[..k], x, geq)| < |TiesWith(s, x, geq)|
    ensures TiesWith(s, x, geq)[|TiesWith(s[..k], x, geq)|] == s[k]
  {
    assert s == s[..k] + ([s[k]] + s[k + 1..]);
    TiesWithConcat(s[..k], [s[k]] + s[k + 1..], x, geq);
    TiesWithConcat([s[k]], s[k + 1..], x, geq);
  }

  /** `f` strictly increases along `s`. */
  ghost predicate IncreasingBy<T>(s: seq<T>, f: T -> int) {
    forall p, q :: 0 <= p < q < |s| ==> f(s[p]) < f(s[q])
  }

  /** The ties of `x` in a sequence along which `f` increases. */
  lemma {:induction false} TiesWithIncreasing<T>(s: seq<T>, x: T, geq: (T, T) -> bool, f: T -> int)
    requires IncreasingBy(s, f)
    ensures IncreasingBy(TiesWith(s, x, geq), f)
  {
    if s != [] {
      TiesWithIncreasing(s[1..], x, geq, f);
      TiesWithIn(s[1..], x, geq);
      var rest := TiesWith(s[1..], x, geq);
      forall e | e in rest
        ensures f(s[0]) < f(e)
      {
        var q :| 0 <= q < |s[1..]| && s[1..][q] == e;
        assert s[q + 1] == e;
      }
      var t := TiesWith(s, x, geq);
      if Tied(s[0], x, geq) {
        assert t == [s[0]] + rest;
        forall p, q | 0 <= p < q < |t|
          ensures f(t[p]) < f(t[q])
        {
          assert t[q] == rest[q - 1] && rest[q - 1] in rest;
          if p > 0 {
            assert t[p] == rest[p - 1];
          }
        }
      } else {
        assert t == rest;
      }
    }
  }

  /** Elements of equal key come out of `SortDesc` in the order of `f`
      when `f` increases along the input (an input position, say). */
  lemma SortDescKeepsOrder<T(!new)>(s: seq<T>, geq: (T, T) -> bool, f: T -> int)
    requires TotalPreorder(geq) && IncreasingBy(s, f)
    ensures var r := SortDesc(s, geq);
            forall i, j :: 0 <= i < j < |r| && Tied(r[i], r[j], geq) ==> f(r[i]) < f(r[j])
  {
    var r := SortDesc(s, geq);
    forall i, j | 0 <= i < j < |r| && Tied(r[i], r[j], geq)
      ensures f(r[i]) < f(r[j])
    {
      SortDescKeepsOrderAt(s, geq, f, i, j);
    }
  }

  lemma SortDescKeepsOrderAt<T(!new)>(s: seq<T>, geq: (T, T) -> bool, f: T -> int, i: nat, j: nat)
    requires TotalPreorder(geq) && IncreasingBy(s, f)
    requires i < j < |SortDesc(s, geq)| && Tied(SortDesc(s, geq)[i], SortDesc(s, geq)[j], geq)
    ensures f(SortDesc(s, geq)[i]) < f(SortDesc(s, geq)[j])
  {
    var r := SortDesc(s, geq);
    var x := r[i];
    SortDescIsStable(s, x, geq);
    SameTiesKeepOrder(s, r, x, geq, f, i, j);
  }

  /** Two sequences with the same ties of `x`, where `f` increases along
      the first: `f` increases along the ties of `x` in the second. */
  lemma SameTiesKeepOrder<T>(s: seq<T>, r: seq<T>, x: T, geq: (T, T) -> bool, f: T -> int, i: nat, j: nat)
    requires IncreasingBy(s, f) && TiesWith(r, x, geq) == TiesWith(s, x, geq)
    requires i < j < |r| && Tied(r[i], x, geq) && Tied(r[j], x, geq)
    ensures f(r[i]) < f(r[j])
  {
    var t := TiesWith(r, x, geq);
    TiesWithIncreasing(s, x, geq, f);
    TiesWithAt(r, x, geq, i);
    TiesWithAt(r, x, geq, j);
    TiesPrefixLonger(r, x, geq, i, j);
    var p, q := |TiesWith(r[..i], x, geq)|, |TiesWith(r[..j], x, geq)|;
    assert p < q < |t| && t[p] == r[i] && t[q] == r[j];
  }

  /** A tie at `i` makes the ties before `j > i` outnumber those before `i`. */
  lemma TiesPrefixLonger<T>(r: seq<T>, x: T, geq: (T, T) -> bool, i: nat, j: nat)
    requires i < j <= |r| && Tied(r[i], x, geq)
    ensures |TiesWith(r[..i], x, geq)| < |TiesWith(r[..j], x, geq)|
  {
    assert r[..j] == r[..i] + ([r[i]] + r[i + 1..j]);
    TiesWithConcat(r[..i], [r[i]] + r[i + 1..j], x, geq);
    TiesWithConcat([r[i]], r[i + 1..j], x, geq);
  }

  /** The head of the sort is the first element of `s` that no element
      beats: every element before it is beaten by it. */
  lemma SortDescHeadFirst<T(!new)>(s: seq<T>, geq: (T, T) -> bool)
    requires TotalPreorder(geq) && s != []
    ensures exists k :: 0 <= k < |s| && s[k] == SortDesc(s, geq)[0]
              && forall j :: 0 <= j < k ==> !geq(s[j], s[k])
  {
    var r := SortDesc(s, geq);
    var x := r[0];
    assert Tied(x, x, geq);
    SortDescIsStable(s, x, geq);
    var k := FirstTie(s, x, geq);
    forall j | 0 <= j < k
      ensures !geq(s[j], x)
    {
      assert s[j] in multiset(r) by {
        assert s[j] in multiset(s);
      }
      var q :| 0 <= q < |r| && r[q] == s[j];
      if q > 0 {
        assert geq(r[0], r[q]);
      }
    }
  }

  /** The first tie of `x` in `s` and the position where it stands. */
  lemma {:induction false} FirstTie<T>(s: seq<T>, x: T, geq: (T, T) -> bool) returns (k: nat)
    requires TiesWith(s, x, geq) != []
    ensures k < |s| && s[k] == TiesWith(s, x, geq)[0] && Tied(s[k], x, geq)
    ensures forall j :: 0 <= j < k ==> !Tied(s[j], x, geq)
  {
    if Tied(s[0], x, geq) {
      k := 0;
    } else {
      var k' := FirstTie(s[1..], x, geq);
      k := k' + 1;
    }
  }

  ghost predicate Distinct<T>(s: seq<T>) {
    forall i, j :: 0 <= i < j < |s| ==> s[i] != s[j]
  }

  lemma {:induction false} DistinctMultiplicity<T>(s: seq<T>)
    requires Distinct(s)
    ensures forall x :: multiset(s)[x] <= 1
  {
    if s != [] {
      var init := s[..|s| - 1];
      assert Distinct(init);
      DistinctMultiplicity(init);
      assert s == init + [s[|s| - 1]];
      assert s[|s| - 1] !in init;
    }
  }

  lemma MultiplicityDistinct<T>(s: seq<T>)
    requires forall x :: multiset(s)[x] <= 1
    ensures Distinct(s)
  {
    forall i, j | 0 <= i < j < |s|
      ensures s[i] != s[j]
    {
      assert s == s[..i] + [s[i]] + s[i + 1..j] + [s[j]] + s[j + 1..];
      assert multiset(s) == multiset(s[..i]) + multiset{s[i]} + multiset(s[i + 1..j]) + multiset{s[j]} + multiset(s[j + 1..]);
      assert multiset(s)[s[i]] <= 1;
      assert multiset(s)[s[i]] >= multiset{s[i]}[s[i]] + multiset{s[j]}[s[i]];
    }
  }

  /** A permutation of a sequence without repetitions has none either. */
  lemma PermutationKeepsDistinct<T>(s: seq<T>, t: seq<T>)
    requires multiset(s) == multiset(t) && Distinct(s)
    ensures Distinct(t)
  {
    DistinctMultiplicity(s);
    MultiplicityDistinct(t);
  }

  /** A slice of a suffix is a slice of the whole. */
  lemma SliceOfDrop<T>(s: seq<T>, d: nat, i: nat, j: nat)
    requires d <= |s| && i <= j <= |s| - d
    ensures s[d..][i..j] == s[d + i..d + j]
  {
  }

  /** A slice of a prefix is a slice of the whole. */
  lemma SliceOfTake<T>(s: seq<T>, n: nat, i: nat, j: nat)
    requires i <= j <= n <= |s|
    ensures s[..n][i..j] == s[i..j]
  {
  }

  /** Dropping twice is dropping once. */
  lemma DropOfDrop<T>(s: seq<T>, i: nat, j: nat)
    requires i + j <= |s|
    ensures s[i..][j..] == s[i + j..]
  {
  }

  /** Dropping the last element of `a + b` with `b` not empty. */
  lemma InitOfConcat<T>(a: seq<T>, b: seq<T>)
    requires b != []
    ensures (a + b)[..|a + b| - 1] == a + b[..|b| - 1]
    ensures (a + b)[|a + b| - 1] == b[|b| - 1]
  {
  }

  /** Appending to the second half of a concatenation. */
  lemma ConcatSnoc<T>(ab: seq<T>, a: seq<T>, b: seq<T>, x: seq<T>, abx: seq<T>, bx: seq<T>)
    requires ab == a + b && abx == ab + x && bx == b + x
    ensures abx == a + bx
  {
  }

  /** The prefix as long as the sequence is the sequence. */
  lemma TakeAll<T>(s: seq<T>)
    ensures s[..|s|] == s
  {
  }

  /** An element of a prefix and its position. */
  lemma InPrefix<T>(s: seq<T>, k: nat, e: T) returns (j: nat)
    requires k <= |s| && e in s[..k]
    ensures j < k && s[j] == e
  {
    j :| 0 <= j < k && s[..k][j] == e;
  }

  /** A prefix of a prefix is a prefix. */
  lemma PrefixOfPrefix<T>(s: seq<T>, n: nat, i: nat)
    requires i <= n <= |s|
    ensures s[..n][..i] == s[..i]
  {
  }
}
