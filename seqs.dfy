/**
 * The query shapes the services ask the database for, over in-memory rows:
 * `where` (Filter), `findFirst` (Find), `orderBy` (SortBy) and `skip`/`take`
 * (Window).
 */
module Seqs {
  import opened Wrappers

  /** The rows of `s` satisfying `p`, in table order. */
  function Filter<T(!new)>(s: seq<T>, p: T -> bool): (r: seq<T>)
    ensures |r| <= |s|
    ensures forall i :: 0 <= i < |r| ==> p(r[i])
    ensures forall x :: x in r <==> x in s && p(x)
  {
    if s == [] then []
    else if p(s[0]) then [s[0]] + Filter(s[1..], p)
    else Filter(s[1..], p)
  }

  lemma {:induction false} FilterMultiset<T(!new)>(s: seq<T>, p: T -> bool)
    ensures multiset(Filter(s, p)) <= multiset(s)
  {
    if s != [] {
      FilterMultiset(s[1..], p);
      assert s == [s[0]] + s[1..];
    }
  }

  lemma {:induction false} FilterAppend<T(!new)>(s: seq<T>, x: T, p: T -> bool)
    ensures Filter(s + [x], p) == if p(x) then Filter(s, p) + [x] else Filter(s, p)
  {
    if s == [] {
      assert [x][1..] == [];
    } else {
      assert (s + [x])[1..] == s[1..] + [x];
      FilterAppend(s[1..], x, p);
    }
  }

  lemma {:induction false} FilterConcat<T(!new)>(a: seq<T>, b: seq<T>, p: T -> bool)
    ensures Filter(a + b, p) == Filter(a, p) + Filter(b, p)
  {
    if a == [] {
      assert a + b == b;
    } else {
      assert (a + b)[1..] == a[1..] + b;
      FilterConcat(a[1..], b, p);
    }
  }

  /** Filtering by a predicate that implies another keeps no more rows. */
  lemma {:induction false} FilterWeaker<T(!new)>(s: seq<T>, p: T -> bool, q: T -> bool)
    requires forall x :: p(x) ==> q(x)
    ensures |Filter(s, p)| <= |Filter(s, q)|
  {
    if s != [] { FilterWeaker(s[1..], p, q); }
  }

  /** Filtering by `p` then `q` is filtering by both. */
  lemma {:induction false} FilterFilter<T(!new)>(s: seq<T>, p: T -> bool, q: T -> bool, pq: T -> bool)
    requires forall x :: pq(x) == (p(x) && q(x))
    ensures Filter(Filter(s, p), q) == Filter(s, pq)
  {
    if s != [] {
      FilterFilter(s[1..], p, q, pq);
    }
  }

  /** When three predicates split the rows kept by `p`, their counts add up to the count of `p`. */
  lemma {:induction false} FilterSplit3<T(!new)>(s: seq<T>, p: T -> bool, a: T -> bool, b: T -> bool, c: T -> bool)
    requires forall x :: p(x) ==> (a(x) || b(x) || c(x))
    requires forall x :: !(a(x) && b(x)) && !(a(x) && c(x)) && !(b(x) && c(x))
    requires forall x :: (a(x) || b(x) || c(x)) ==> p(x)
    ensures |Filter(s, p)| == |Filter(s, a)| + |Filter(s, b)| + |Filter(s, c)|
  {
    if s != [] { FilterSplit3(s[1..], p, a, b, c); }
  }

  /** Filtering by a predicate every row satisfies keeps every row. */
  lemma {:induction false} FilterAll<T(!new)>(s: seq<T>, p: T -> bool)
    requires forall x :: x in s ==> p(x)
    ensures Filter(s, p) == s
  {
    if s != [] {
      assert s == [s[0]] + s[1..];
      FilterAll(s[1..], p);
    }
  }

  /** Filtering by a predicate no row satisfies keeps nothing. */
  lemma {:induction false} FilterNone<T(!new)>(s: seq<T>, p: T -> bool)
    requires forall x :: x in s ==> !p(x)
    ensures Filter(s, p) == []
  {
    if s != [] {
      assert s[0] in s;
      FilterNone(s[1..], p);
    }
  }

  /** Filtering keeps a unique index unique. */
  lemma {:induction false} FilterDistinct<T(!new), K>(s: seq<T>, p: T -> bool, key: T -> K)
    requires Distinct(s, key)
    ensures Distinct(Filter(s, p), key)
  {
    if s != [] {
      var rest := s[1..];
      assert Distinct(rest, key) by {
        forall i, j | 0 <= i < j < |rest| ensures key(rest[i]) != key(rest[j]) {
          assert rest[i] == s[i + 1] && rest[j] == s[j + 1];
        }
      }
      FilterDistinct(rest, p, key);
      if p(s[0]) {
        var fr := Filter(rest, p);
        forall x | x in fr ensures key(x) != key(s[0]) {
          var j :| 0 <= j < |rest| && rest[j] == x;
          assert s[j + 1] == x;
        }
        var f := [s[0]] + fr;
        forall i, j | 0 <= i < j < |f| ensures key(f[i]) != key(f[j]) {
          if i == 0 {
            assert f[j] == fr[j - 1] && fr[j - 1] in fr;
          } else {
            assert f[i] == fr[i - 1] && f[j] == fr[j - 1];
          }
        }
      }
    }
  }

  /** The first row satisfying `p`, as `findFirst`/`findUnique` return it. */
  function Find<T(!new)>(s: seq<T>, p: T -> bool): (r: Option<T>)
    ensures r.Some? <==> exists x :: x in s && p(x)
    ensures r.Some? ==> r.value in s && p(r.value)
  {
    if s == [] then None
    else if p(s[0]) then Some(s[0])
    else Find(s[1..], p)
  }

  /** No two rows share a key: a unique index. */
  ghost predicate Distinct<T, K>(s: seq<T>, key: T -> K) {
    forall i, j :: 0 <= i < j < |s| ==> key(s[i]) != key(s[j])
  }

  /** Under a unique index, the row found by key is the only row with that key. */
  lemma FindUnique<T(!new), K>(s: seq<T>, key: T -> K, k: K, x: T)
    requires Distinct(s, key)
    requires x in s && key(x) == k
    ensures Find(s, y => key(y) == k) == Some(x)
  {
    var r := Find(s, y => key(y) == k);
    var i :| 0 <= i < |s| && s[i] == r.value;
    var j :| 0 <= j < |s| && s[j] == x;
    assert !(i < j) && !(j < i);
  }

  /** `s` ordered by non-decreasing `key` (an ascending `orderBy`). */
  ghost predicate Ascending<T>(s: seq<T>, key: T -> int) {
    forall i, j :: 0 <= i < j < |s| ==> key(s[i]) <= key(s[j])
  }

  function Insert<T>(x: T, s: seq<T>, key: T -> int): (r: seq<T>)
    requires Ascending(s, key)
    ensures Ascending(r, key)
    ensures |r| == |s| + 1
    ensures forall i :: 0 <= i < |r| ==> key(r[i]) == key(x) || exists j :: 0 <= j < |s| && key(r[i]) == key(s[j])
    ensures multiset(r) == multiset(s) + multiset{x}
  {
    if s == [] then [x]
    else if key(x) <= key(s[0]) then
      assert s == [s[0]] + s[1..];
      [x] + s
    else
      var rest := Insert(x, s[1..], key);
      InsertTail(x, s, key, rest);
      [s[0]] + rest
  }

  lemma InsertTail<T>(x: T, s: seq<T>, key: T -> int, rest: seq<T>)
    requires s != [] && Ascending(s, key) && key(s[0]) < key(x)
    requires Ascending(rest, key)
    requires forall i :: 0 <= i < |rest| ==> key(rest[i]) == key(x) || exists j :: 0 <= j < |s[1..]| && key(rest[i]) == key(s[1..][j])
    requires multiset(rest) == multiset(s[1..]) + multiset{x}
    ensures Ascending([s[0]] + rest, key)
    ensures forall i :: 0 <= i < |[s[0]] + rest| ==> key(([s[0]] + rest)[i]) == key(x) || exists j :: 0 <= j < |s| && key(([s[0]] + rest)[i]) == key(s[j])
    ensures multiset([s[0]] + rest) == multiset(s) + multiset{x}
  {
    assert s == [s[0]] + s[1..];
    forall i | 0 <= i < |rest| ensures key(s[0]) <= key(rest[i]) {
      if key(rest[i]) != key(x) {
        var j :| 0 <= j < |s[1..]| && key(rest[i]) == key(s[1..][j]);
        assert s[1..][j] == s[j + 1];
      }
    }
    forall i | 0 <= i < |[s[0]] + rest| && key(([s[0]] + rest)[i]) != key(x)
      ensures exists j :: 0 <= j < |s| && key(([s[0]] + rest)[i]) == key(s[j])
    {
      if i == 0 {
        assert key(([s[0]] + rest)[i]) == key(s[0]);
      } else {
        var j :| 0 <= j < |s[1..]| && key(rest[i - 1]) == key(s[1..][j]);
        assert s[1..][j] == s[j + 1];
      }
    }
  }

  /** `s` reordered by ascending `key`; rows with equal keys come in an unspecified order. */
  function SortBy<T>(s: seq<T>, key: T -> int): (r: seq<T>)
    ensures Ascending(r, key)
    ensures multiset(r) == multiset(s)
  {
    if s == [] then []
    else
      assert s == [s[0]] + s[1..];
      Insert(s[0], SortBy(s[1..], key), key)
  }

  /** `skip` then `take`, as the database applies them to an ordered result. */
  function Window<T>(s: seq<T>, skip: int, take: int): (r: seq<T>)
    requires 0 <= skip && 0 <= take
    ensures |r| <= take
    ensures |r| == if skip >= |s| then 0 else if skip + take <= |s| then take else |s| - skip
    ensures forall i :: 0 <= i < |r| ==> r[i] == s[skip + i]
  {
    var lo := if skip < |s| then skip else |s|;
    var hi := if skip + take < |s| then skip + take else |s|;
    s[lo..hi]
  }

  /** The rows a prefix of an ascending sequence leaves out have keys no smaller than any row it keeps. */
  lemma AscendingPrefixLeast<T>(s: seq<T>, key: T -> int, k: nat)
    requires Ascending(s, key) && k <= |s|
    ensures forall x, y :: x in multiset(s) - multiset(s[..k]) && y in s[..k] ==> key(y) <= key(x)
  {
    assert s == s[..k] + s[k..];
    forall x, y | x in multiset(s) - multiset(s[..k]) && y in s[..k] ensures key(y) <= key(x) {
      assert x in multiset(s[k..]);
      var j :| 0 <= j < |s[k..]| && s[k..][j] == x;
      var i :| 0 <= i < k && s[..k][i] == y;
      assert s[k + j] == x && s[i] == y;
    }
  }

  /** The first `n` windows of size `size`, one after another. */
  function Paged<T>(s: seq<T>, size: nat, n: nat): (r: seq<T>)
    requires size >= 1
    ensures |r| <= n * size
  {
    if n == 0 then [] else Paged(s, size, n - 1) + Window(s, (n - 1) * size, size)
  }

  /** Reading pages 1 to `n` gives back the first `n * size` rows, and nothing out of order. */
  lemma {:induction false} PagedIsPrefix<T>(s: seq<T>, size: nat, n: nat)
    requires size >= 1
    ensures Paged(s, size, n) == s[..if n * size <= |s| then n * size else |s|]
  {
    if n > 0 {
      PagedIsPrefix(s, size, n - 1);
      var lo := (n - 1) * size;
      var hi := n * size;
      assert hi == lo + size;
      var before := s[..if lo <= |s| then lo else |s|];
      var w := Window(s, lo, size);
      var after := s[..if hi <= |s| then hi else |s|];
      assert before + w == after;
    }
  }
}
