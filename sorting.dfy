/**
 * A stable sort by an integer key, largest key first: the behaviour of
 * `sorted(Comparator.comparing(key).reversed())` on a Java stream, and of an
 * `ORDER BY key DESC` over rows read in identifier order.
 */
module Sorting {

  /** `s` is ordered by `key`, largest first. */
  predicate SortedDesc<T>(s: seq<T>, key: T -> int) {
    forall i, j :: 0 <= i < j < |s| ==> key(s[i]) >= key(s[j])
  }

  /** `a` comes before `b`: a larger key, or an equal key and a smaller `tie`. */
  predicate Before<T>(a: T, b: T, key: T -> int, tie: T -> int) {
    key(a) > key(b) || (key(a) == key(b) && tie(a) < tie(b))
  }

  /** `s` is ordered by `key`, largest first, and elements with equal keys by `tie`, smallest first. */
  predicate SortedDescThenAsc<T>(s: seq<T>, key: T -> int, tie: T -> int) {
    forall i, j :: 0 <= i < j < |s| ==> Before(s[i], s[j], key, tie)
  }

  /** Ordering with a tie-break is in particular ordering by the key alone. */
  lemma TieOrderIsKeyOrder<T>(s: seq<T>, key: T -> int, tie: T -> int)
    requires SortedDescThenAsc(s, key, tie)
    ensures SortedDesc(s, key)
  {
  }

  /** `s` is strictly increasing in `f`. */
  predicate StrictlyAscending<T>(s: seq<T>, f: T -> int) {
    forall i, j :: 0 <= i < j < |s| ==> f(s[i]) < f(s[j])
  }

  /** No two elements of `s` agree on `f`. */
  predicate DistinctBy<T>(s: seq<T>, f: T -> int) {
    forall i, j :: 0 <= i < j < |s| ==> f(s[i]) != f(s[j])
  }

  /** Prepending an element whose key is at least every key of a descending sequence keeps it descending. */
  lemma ConsKeepsSorted<T>(h: T, s: seq<T>, key: T -> int)
    requires SortedDesc(s, key)
    requires forall y :: y in s ==> key(h) >= key(y)
    ensures SortedDesc([h] + s, key)
  {
    var r := [h] + s;
    forall i, j | 0 <= i < j < |r| ensures key(r[i]) >= key(r[j]) {
      assert r[j] == s[j - 1];
      if 0 < i {
        assert r[i] == s[i - 1];
      } else {
        assert s[j - 1] in s;
      }
    }
  }

  /**
   * Inserts `x` before the first element whose key is not larger than its
   * own, so that `x` precedes the elements of `s` with an equal key.
   */
  function InsertDesc<T>(x: T, s: seq<T>, key: T -> int): (r: seq<T>)
    ensures multiset(r) == multiset(s) + multiset{x}
    ensures SortedDesc(s, key) ==> SortedDesc(r, key)
  {
    if s == [] || key(x) >= key(s[0]) then
      assert SortedDesc(s, key) ==> forall y :: y in s ==> key(x) >= key(y) by {
        if SortedDesc(s, key) {
          forall y | y in s ensures key(x) >= key(y) {
            var k :| 0 <= k < |s| && s[k] == y;
          }
        }
      }
      assert SortedDesc(s, key) ==> SortedDesc([x] + s, key) by {
        if SortedDesc(s, key) { ConsKeepsSorted(x, s, key); }
      }
      [x] + s
    else
      var rest := InsertDesc(x, s[1..], key);
      assert s == [s[0]] + s[1..];
      assert forall y :: y in rest ==> y == x || y in s[1..] by {
        forall y | y in rest ensures y == x || y in s[1..] {
          assert y in multiset(rest);
        }
      }
      assert SortedDesc(s, key) ==> SortedDesc([s[0]] + rest, key) by {
        if SortedDesc(s, key) {
          forall y | y in rest ensures key(s[0]) >= key(y) {
            if y != x {
              var k :| 0 <= k < |s[1..]| && s[1..][k] == y;
              assert s[k + 1] == y;
            }
          }
          assert SortedDesc(s[1..], key);
          ConsKeepsSorted(s[0], rest, key);
        }
      }
      [s[0]] + rest
  }

  /** Insertion sort: a permutation of `s`, ordered by `key`, largest first. */
  function SortDesc<T>(s: seq<T>, key: T -> int): (r: seq<T>)
    ensures multiset(r) == multiset(s)
    ensures SortedDesc(r, key)
  {
    if s == [] then
      []
    else
      assert s == [s[0]] + s[1..];
      InsertDesc(s[0], SortDesc(s[1..], key), key)
  }

  lemma ElementsOfPermutation<T>(r: seq<T>, s: seq<T>)
    requires multiset(r) == multiset(s)
    ensures forall y :: y in r <==> y in s
  {
    forall y ensures y in r <==> y in s {
      assert y in r <==> y in multiset(r);
      assert y in s <==> y in multiset(s);
    }
  }

  /** Prepending `h` keeps the order when `h` comes before, and shares no `tie` with, every element. */
  lemma ConsKeepsTieOrder<T>(h: T, s: seq<T>, key: T -> int, tie: T -> int)
    requires SortedDescThenAsc(s, key, tie) && DistinctBy(s, tie)
    requires forall y :: y in s ==> Before(h, y, key, tie) && tie(h) != tie(y)
    ensures SortedDescThenAsc([h] + s, key, tie) && DistinctBy([h] + s, tie)
  {
    var r := [h] + s;
    forall i, j | 0 <= i < j < |r| ensures Before(r[i], r[j], key, tie) && tie(r[i]) != tie(r[j]) {
      assert r[j] == s[j - 1];
      if i == 0 {
        assert s[j - 1] in s;
      } else {
        assert r[i] == s[i - 1];
      }
    }
  }

  /** The head of an ordered sequence comes before every later element. */
  lemma HeadComesFirst<T>(s: seq<T>, key: T -> int, tie: T -> int)
    requires s != [] && SortedDescThenAsc(s, key, tie) && DistinctBy(s, tie)
    ensures SortedDescThenAsc(s[1..], key, tie) && DistinctBy(s[1..], tie)
    ensures forall y :: y in s[1..] ==> Before(s[0], y, key, tie) && tie(s[0]) != tie(y)
  {
    forall y | y in s[1..] ensures Before(s[0], y, key, tie) && tie(s[0]) != tie(y) {
      var k :| 0 <= k < |s[1..]| && s[1..][k] == y;
      assert s[k + 1] == y;
    }
  }

  lemma {:induction false} InsertDescKeepsTieOrder<T>(x: T, s: seq<T>, key: T -> int, tie: T -> int)
    requires SortedDescThenAsc(s, key, tie) && DistinctBy(s, tie)
    requires forall y :: y in s ==> tie(x) < tie(y)
    ensures SortedDescThenAsc(InsertDesc(x, s, key), key, tie)
    ensures DistinctBy(InsertDesc(x, s, key), tie)
  {
    if s == [] || key(x) >= key(s[0]) {
      if s != [] {
        HeadComesFirst(s, key, tie);
        forall y | y in s ensures Before(x, y, key, tie) {
          if y != s[0] {
            assert s == [s[0]] + s[1..];
            assert y in s[1..];
          }
        }
      }
      ConsKeepsTieOrder(x, s, key, tie);
    } else {
      var rest := InsertDesc(x, s[1..], key);
      assert s == [s[0]] + s[1..];
      HeadComesFirst(s, key, tie);
      InsertDescKeepsTieOrder(x, s[1..], key, tie);
      ElementsOfPermutation(rest, s[1..] + [x]);
      forall y | y in rest ensures Before(s[0], y, key, tie) && tie(s[0]) != tie(y) {
        assert y in multiset(rest);
        assert y in s[1..] + [x];
        if y == x {
          assert s[0] in s;
        } else {
          assert y in s[1..];
        }
      }
      ConsKeepsTieOrder(s[0], rest, key, tie);
    }
  }

  /**
   * Insertion sort is stable: if the input is strictly increasing in `tie`,
   * elements with equal keys come out in increasing `tie` order, and no two
   * outputs share a `tie` value.
   */
  lemma {:induction false} SortDescTieBreak<T>(s: seq<T>, key: T -> int, tie: T -> int)
    requires StrictlyAscending(s, tie)
    ensures SortedDescThenAsc(SortDesc(s, key), key, tie)
    ensures DistinctBy(SortDesc(s, key), tie)
  {
    if s != [] {
      assert s == [s[0]] + s[1..];
      var sorted := SortDesc(s[1..], key);
      SortDescTieBreak(s[1..], key, tie);
      ElementsOfPermutation(sorted, s[1..]);
      forall y | y in sorted ensures tie(s[0]) < tie(y) {
        assert y in multiset(sorted);
        assert y in s[1..];
        var k :| 0 <= k < |s[1..]| && s[1..][k] == y;
        assert s[k + 1] == y;
      }
      InsertDescKeepsTieOrder(s[0], sorted, key, tie);
    }
  }
}
