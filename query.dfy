/** What the document store does with a `find(filter).sort(...).skip(...).limit(...)` chain,
    `countDocuments` and a `$sum` group, stated over sequences, together with the pagination
    arithmetic the list handlers share. */
module Query {
  import opened Common

  // ---------------------------------------------------------------------------
  // Filtering, counting, summing, lookup

  /** The documents that match a filter, in store order. */
  function Filter<T>(s: seq<T>, p: T -> bool): (r: seq<T>)
    ensures |r| <= |s|
    ensures forall k :: 0 <= k < |r| ==> p(r[k])
    ensures forall x :: x in s && p(x) ==> x in r
  {
    if s == [] then []
    else
      var rest := Filter(s[1..], p);
      assert s == [s[0]] + s[1..];
      if p(s[0]) then [s[0]] + rest else rest
  }

  /** A filter keeps each matching document as often as the collection holds it, and nothing else:
      `countDocuments` counts every stored match exactly once. */
  lemma {:induction false} FilterCounts<T>(s: seq<T>, p: T -> bool)
    ensures multiset(Filter(s, p)) <= multiset(s)
    ensures forall x :: x in s && p(x) ==> multiset(Filter(s, p))[x] == multiset(s)[x]
  {
    if s != [] {
      var tail := s[1..];
      var rest := Filter(tail, p);
      FilterCounts(tail, p);
      assert s == [s[0]] + tail;
      assert multiset(s) == multiset{s[0]} + multiset(tail);
      var added := if p(s[0]) then multiset{s[0]} else multiset{};
      assert multiset(Filter(s, p)) == added + multiset(rest) by {
        if p(s[0]) {
          assert Filter(s, p) == [s[0]] + rest;
        }
      }
      forall x | x in s && p(x)
        ensures multiset(Filter(s, p))[x] == multiset(s)[x]
      {
        if x !in tail {
          assert multiset(tail)[x] == 0;
        }
      }
    }
  }

  lemma {:induction false} FilterMembers<T>(s: seq<T>, p: T -> bool, x: T)
    ensures x in Filter(s, p) <==> x in s && p(x)
  {
    if s != [] {
      FilterMembers(s[1..], p, x);
      assert s == [s[0]] + s[1..];
    }
  }

  /** A stronger filter keeps no more documents than a weaker one (`countDocuments` is monotone). */
  lemma {:induction false} FilterStrongerCountsLess<T>(s: seq<T>, p: T -> bool, q: T -> bool)
    requires forall x :: p(x) ==> q(x)
    ensures |Filter(s, p)| <= |Filter(s, q)|
  {
    if s != [] {
      FilterStrongerCountsLess(s[1..], p, q);
    }
  }

  /** Filtering a concatenation filters each part. */
  lemma {:induction false} FilterAppend<T>(a: seq<T>, b: seq<T>, p: T -> bool)
    ensures Filter(a + b, p) == Filter(a, p) + Filter(b, p)
  {
    if a == [] {
      assert a + b == b;
    } else {
      assert (a + b)[1..] == a[1..] + b;
      FilterAppend(a[1..], b, p);
    }
  }

  /** Appending one document adds it to the matches exactly when it matches. */
  lemma FilterAppendOne<T>(s: seq<T>, x: T, p: T -> bool)
    ensures Filter(s + [x], p) == Filter(s, p) + (if p(x) then [x] else [])
  {
    FilterAppend(s, [x], p);
    assert [x][1..] == [];
  }

  /** A filter every document passes keeps the whole collection. */
  lemma {:induction false} FilterAll<T>(s: seq<T>, p: T -> bool)
    requires forall k :: 0 <= k < |s| ==> p(s[k])
    ensures Filter(s, p) == s
  {
    if s != [] {
      FilterAll(s[1..], p);
      assert s == [s[0]] + s[1..];
    }
  }

  /** A filter no document passes keeps nothing. */
  lemma {:induction false} FilterNone<T>(s: seq<T>, p: T -> bool)
    requires forall k :: 0 <= k < |s| ==> !p(s[k])
    ensures Filter(s, p) == []
  {
    if s != [] {
      FilterNone(s[1..], p);
    }
  }

  /** Removing the one document a filter rejects is filtering by it. */
  lemma {:induction false} FilterRemovesOne<T>(s: seq<T>, i: nat, p: T -> bool)
    requires i < |s| && !p(s[i])
    requires forall k :: 0 <= k < |s| && k != i ==> p(s[k])
    ensures Filter(s, p) == s[..i] + s[i + 1..]
  {
    var tail := s[1..];
    if i == 0 {
      forall k | 0 <= k < |tail| ensures p(tail[k]) {
        assert tail[k] == s[k + 1];
      }
      FilterAll(tail, p);
    } else {
      forall k | 0 <= k < |tail| && k != i - 1 ensures p(tail[k]) {
        assert tail[k] == s[k + 1];
      }
      FilterRemovesOne(tail, i - 1, p);
      assert s[..i] + s[i + 1..] == [s[0]] + (tail[..i - 1] + tail[i..]);
    }
  }

  /** `$sum` of a numeric field. */
  function SumOf<T>(s: seq<T>, f: T -> int): int {
    if s == [] then 0 else f(s[0]) + SumOf(s[1..], f)
  }

  /** A sum of non-negative terms is non-negative. */
  lemma {:induction false} SumOfNonNegative<T>(s: seq<T>, f: T -> int)
    requires forall k :: 0 <= k < |s| ==> f(s[k]) >= 0
    ensures SumOf(s, f) >= 0
  {
    if s != [] {
      SumOfNonNegative(s[1..], f);
    }
  }

  /** A sum of terms each at most `bound` is at most `|s| * bound`. */
  lemma {:induction false} SumOfBounded<T>(s: seq<T>, f: T -> int, bound: int)
    requires forall k :: 0 <= k < |s| ==> f(s[k]) <= bound
    ensures SumOf(s, f) <= |s| * bound
  {
    if s != [] {
      SumOfBounded(s[1..], f, bound);
    }
  }

  lemma {:induction false} SumOfAppend<T>(a: seq<T>, b: seq<T>, f: T -> int)
    ensures SumOf(a + b, f) == SumOf(a, f) + SumOf(b, f)
  {
    if a == [] {
      assert a + b == b;
    } else {
      assert (a + b)[1..] == a[1..] + b;
      SumOfAppend(a[1..], b, f);
    }
  }

  lemma SumOfOne<T>(x: T, f: T -> int)
    ensures SumOf([x], f) == f(x)
  {
    assert [x][1..] == [];
  }

  /** Taking one term out of a sum. */
  lemma SumOfRemove<T>(b: seq<T>, i: nat, f: T -> int)
    requires i < |b|
    ensures SumOf(b, f) == f(b[i]) + SumOf(b[..i] + b[i + 1..], f)
  {
    assert b == (b[..i] + [b[i]]) + b[i + 1..];
    SumOfAppend(b[..i] + [b[i]], b[i + 1..], f);
    SumOfAppend(b[..i], [b[i]], f);
    SumOfAppend(b[..i], b[i + 1..], f);
    assert [b[i]][1..] == [];
  }

  /** Taking the same element out of two permutations of each other leaves permutations. */
  lemma MultisetRemove<T>(a: seq<T>, b: seq<T>, i: nat)
    requires multiset(a) == multiset(b) && a != [] && i < |b| && b[i] == a[0]
    ensures multiset(a[1..]) == multiset(b[..i] + b[i + 1..])
  {
    assert a == [a[0]] + a[1..];
    assert b == b[..i] + [b[i]] + b[i + 1..];
    assert multiset(a[1..]) == multiset(a) - multiset{a[0]};
    assert multiset(b[..i] + b[i + 1..]) == multiset(b) - multiset{b[i]};
  }

  /** A sum does not depend on the order of its terms. */
  lemma {:induction false} SumOfPermutation<T>(a: seq<T>, b: seq<T>, f: T -> int)
    requires multiset(a) == multiset(b)
    ensures SumOf(a, f) == SumOf(b, f)
  {
    if a != [] {
      assert a[0] in multiset(b);
      var i :| 0 <= i < |b| && b[i] == a[0];
      MultisetRemove(a, b, i);
      SumOfPermutation(a[1..], b[..i] + b[i + 1..], f);
      SumOfRemove(b, i, f);
    } else {
      assert |multiset(b)| == 0;
    }
  }

  /** The position of the first document that matches (`findOne`, `findById`). */
  function IndexOf<T>(s: seq<T>, p: T -> bool): (r: Option<nat>)
    ensures r.Some? ==> r.value < |s| && p(s[r.value])
    ensures r.Some? ==> forall k :: 0 <= k < r.value ==> !p(s[k])
    ensures r.None? <==> forall k :: 0 <= k < |s| ==> !p(s[k])
  {
    if s == [] then None
    else if p(s[0]) then Some(0)
    else
      match IndexOf(s[1..], p)
      case None => None
      case Some(i) => Some(i + 1)
  }

  /** Appending a matching document to a sequence without one makes it the first match. */
  lemma {:induction false} IndexOfAppendFresh<T>(s: seq<T>, x: T, p: T -> bool)
    requires IndexOf(s, p).None? && p(x)
    ensures IndexOf(s + [x], p) == Some(|s|)
  {
    if s != [] {
      assert (s + [x])[1..] == s[1..] + [x];
      IndexOfAppendFresh(s[1..], x, p);
    }
  }

  /** No two documents share a key (a unique index). */
  predicate Distinct<T, K(==)>(s: seq<T>, key: T -> K) {
    forall i, j :: 0 <= i < j < |s| ==> key(s[i]) != key(s[j])
  }

  /** Appending a document whose key is new keeps the keys distinct. */
  lemma DistinctAppend<T, K>(s: seq<T>, key: T -> K, x: T)
    requires Distinct(s, key)
    requires forall k :: 0 <= k < |s| ==> key(s[k]) != key(x)
    ensures Distinct(s + [x], key)
  {
  }

  /** Removing the document at position `i` keeps the keys distinct. */
  lemma DistinctRemove<T, K>(s: seq<T>, key: T -> K, i: nat)
    requires Distinct(s, key) && i < |s|
    ensures Distinct(s[..i] + s[i + 1..], key)
  {
    var r := s[..i] + s[i + 1..];
    forall a, b | 0 <= a < b < |r| ensures key(r[a]) != key(r[b]) {
      var a' := if a < i then a else a + 1;
      var b' := if b < i then b else b + 1;
      assert r[a] == s[a'] && r[b] == s[b'];
    }
  }

  /** Replacing the document at position `i` by one with the same key keeps the keys distinct. */
  lemma DistinctReplace<T, K>(s: seq<T>, key: T -> K, i: nat, x: T)
    requires Distinct(s, key) && i < |s| && key(x) == key(s[i])
    ensures Distinct(s[i := x], key)
  {
  }

  /** Replacing the document at position `i` by one whose key no other document has keeps the keys
      distinct. */
  lemma DistinctReplaceFresh<T, K>(s: seq<T>, key: T -> K, i: nat, x: T)
    requires Distinct(s, key) && i < |s|
    requires forall k :: 0 <= k < |s| && k != i ==> key(s[k]) != key(x)
    ensures Distinct(s[i := x], key)
  {
  }

  // ---------------------------------------------------------------------------
  // Sorting

  /** A value the store compares when sorting: numbers and dates, or strings. BSON orders every
      number before every string; strings compare by code point. */
  datatype SortKey = IntKey(i: int) | StrKey(s: string)

  predicate StrLe(a: string, b: string) {
    a == [] || (b != [] && (a[0] < b[0] || (a[0] == b[0] && StrLe(a[1..], b[1..]))))
  }

  lemma {:induction false} StrLeTotal(a: string, b: string)
    ensures StrLe(a, b) || StrLe(b, a)
  {
    if a != [] && b != [] && a[0] == b[0] {
      StrLeTotal(a[1..], b[1..]);
    }
  }

  lemma {:induction false} StrLeTransitive(a: string, b: string, c: string)
    requires StrLe(a, b) && StrLe(b, c)
    ensures StrLe(a, c)
  {
    if a != [] && b != [] && c != [] && a[0] == b[0] && b[0] == c[0] {
      StrLeTransitive(a[1..], b[1..], c[1..]);
    }
  }

  predicate KeyLe(a: SortKey, b: SortKey) {
    match (a, b)
    case (IntKey(x), IntKey(y)) => x <= y
    case (StrKey(x), StrKey(y)) => StrLe(x, y)
    case (IntKey(_), StrKey(_)) => true
    case (StrKey(_), IntKey(_)) => false
  }

  lemma KeyLeTotal(a: SortKey, b: SortKey)
    ensures KeyLe(a, b) || KeyLe(b, a)
  {
    if a.StrKey? && b.StrKey? {
      StrLeTotal(a.s, b.s);
    }
  }

  lemma KeyLeTransitive(a: SortKey, b: SortKey, c: SortKey)
    requires KeyLe(a, b) && KeyLe(b, c)
    ensures KeyLe(a, c)
  {
    if a.StrKey? && b.StrKey? && c.StrKey? {
      StrLeTransitive(a.s, b.s, c.s);
    }
  }

  /** `a` may come before `b` in a sort on this key: ascending (`1`) or descending (`-1`). */
  predicate InOrder(a: SortKey, b: SortKey, descending: bool) {
    if descending then KeyLe(b, a) else KeyLe(a, b)
  }

  predicate SortedBy<T>(s: seq<T>, key: T -> SortKey, descending: bool) {
    forall i, j :: 0 <= i < j < |s| ==> InOrder(key(s[i]), key(s[j]), descending)
  }

  function Insert<T>(x: T, s: seq<T>, key: T -> SortKey, descending: bool): (r: seq<T>)
    requires SortedBy(s, key, descending)
    ensures multiset(r) == multiset(s) + multiset{x}
    ensures SortedBy(r, key, descending)
  {
    if s == [] then [x]
    else if InOrder(key(x), key(s[0]), descending) then
      InsertFront(x, s, key, descending);
      [x] + s
    else
      var rest := Insert(x, s[1..], key, descending);
      HeadBeforeRest(x, s, rest, key, descending);
      [s[0]] + rest
  }

  /** When `x` does not go before the head of a sorted sequence, the head still goes before its
      tail with `x` inserted. */
  lemma HeadBeforeRest<T>(x: T, s: seq<T>, rest: seq<T>, key: T -> SortKey, descending: bool)
    requires SortedBy(s, key, descending) && s != [] && !InOrder(key(x), key(s[0]), descending)
    requires multiset(rest) == multiset(s[1..]) + multiset{x} && SortedBy(rest, key, descending)
    ensures SortedBy([s[0]] + rest, key, descending)
    ensures multiset([s[0]] + rest) == multiset(s) + multiset{x}
  {
    assert s == [s[0]] + s[1..];
    KeyLeTotal(key(x), key(s[0]));
    forall k | 0 <= k < |rest| ensures InOrder(key(s[0]), key(rest[k]), descending) {
      assert rest[k] in multiset(rest);
      if rest[k] != x {
        assert rest[k] in multiset(s[1..]);
        var j :| 0 <= j < |s[1..]| && s[1..][j] == rest[k];
        assert s[j + 1] == rest[k];
      }
    }
    var r := [s[0]] + rest;
    forall i, j | 0 <= i < j < |r| ensures InOrder(key(r[i]), key(r[j]), descending) {
      if i > 0 {
        assert r[i] == rest[i - 1] && r[j] == rest[j - 1];
      }
    }
  }

  lemma InsertFront<T>(x: T, s: seq<T>, key: T -> SortKey, descending: bool)
    requires SortedBy(s, key, descending) && s != []
    requires InOrder(key(x), key(s[0]), descending)
    ensures SortedBy([x] + s, key, descending)
  {
    forall k | 0 < k < |s| ensures InOrder(key(x), key(s[k]), descending) {
      if descending {
        KeyLeTransitive(key(s[k]), key(s[0]), key(x));
      } else {
        KeyLeTransitive(key(x), key(s[0]), key(s[k]));
      }
    }
  }

  /** `sort({ field: order })`: the same documents, ordered on the key. Documents with equal keys
      keep an order the store does not promise; this model keeps them in store order. */
  function Sort<T>(s: seq<T>, key: T -> SortKey, descending: bool): (r: seq<T>)
    ensures multiset(r) == multiset(s)
    ensures SortedBy(r, key, descending)
  {
    if s == [] then []
    else
      assert s == [s[0]] + s[1..];
      Insert(s[0], Sort(s[1..], key, descending), key, descending)
  }

  lemma SortLength<T>(s: seq<T>, key: T -> SortKey, descending: bool)
    ensures |Sort(s, key, descending)| == |s|
  {
    assert |multiset(Sort(s, key, descending))| == |multiset(s)|;
  }

  // ---------------------------------------------------------------------------
  // Paging

  /** `skip(skip).limit(limit)`: the documents at positions `skip` up to `skip + limit`. */
  function Page<T>(s: seq<T>, skip: nat, limit: nat): (r: seq<T>)
    ensures |r| <= limit
    ensures |r| == if skip >= |s| then 0 else if |s| - skip < limit then |s| - skip else limit
    ensures forall k :: 0 <= k < |r| ==> r[k] == s[skip + k]
  {
    if skip >= |s| then []
    else if skip + limit <= |s| then s[skip..skip + limit]
    else s[skip..]
  }

  /** A page of a sorted listing is still sorted. */
  lemma PageKeepsOrder<T>(s: seq<T>, skip: nat, limit: nat, key: T -> SortKey, descending: bool)
    requires SortedBy(s, key, descending)
    ensures SortedBy(Page(s, skip, limit), key, descending)
  {
    var r := Page(s, skip, limit);
    forall i, j | 0 <= i < j < |r| ensures InOrder(key(r[i]), key(r[j]), descending) {
      assert r[i] == s[skip + i] && r[j] == s[skip + j];
    }
  }

  /** One page of the matches of a filter, in key order: sorted, and every document on it matches
      the filter and is one of the collection's documents. */
  lemma ListingFacts<T>(s: seq<T>, p: T -> bool, key: T -> SortKey, descending: bool, skip: nat, limit: nat)
    ensures SortedBy(Page(Sort(Filter(s, p), key, descending), skip, limit), key, descending)
    ensures var r := Page(Sort(Filter(s, p), key, descending), skip, limit);
      forall k :: 0 <= k < |r| ==> p(r[k]) && r[k] in s
  {
    var matching := Filter(s, p);
    var sorted := Sort(matching, key, descending);
    var r := Page(sorted, skip, limit);
    PageKeepsOrder(sorted, skip, limit, key, descending);
    forall k | 0 <= k < |r| ensures p(r[k]) && r[k] in s {
      assert r[k] == sorted[skip + k];
      assert r[k] in multiset(sorted);
      assert r[k] in multiset(matching);
      FilterMembers(s, p, r[k]);
    }
  }

  /** The page number or page size read from a query string: the value itself when it is a positive
      number, otherwise the default (also when it is absent, or not a number at all, shown as None). */
  function ParsePagination(value: Option<int>, defaultValue: nat): (r: int)
    ensures (value.Some? && value.value > 0) ==> r == value.value
    ensures (value.None? || value.value <= 0) ==> r == defaultValue
    ensures defaultValue > 0 ==> r > 0
  {
    if value.None? || value.value <= 0 then defaultValue else value.value
  }

  /** `(page - 1) * pageSize`. */
  function Skip(page: int, pageSize: int): (r: nat)
    requires page >= 1 && pageSize >= 1
    ensures r == (page - 1) * pageSize
  {
    (page - 1) * pageSize
  }

  /** `Math.ceil(total / pageSize) || 1`: the least positive number of pages that holds `total` items. */
  function TotalPages(total: nat, pageSize: int): (r: int)
    requires pageSize >= 1
    ensures r >= 1
    ensures total <= r * pageSize
    ensures r == 1 || (r - 1) * pageSize < total
  {
    if total == 0 then 1
    else
      var q := (total + pageSize - 1) / pageSize;
      CeilDivBounds(total, pageSize);
      q
  }

  lemma CeilDivBounds(total: nat, d: int)
    requires d >= 1 && total >= 1
    ensures (total + d - 1) / d >= 1
    ensures total <= ((total + d - 1) / d) * d
    ensures (((total + d - 1) / d) - 1) * d < total
  {
    var n := total + d - 1;
    var q := n / d;
    var m := n % d;
    assert n == q * d + m && 0 <= m < d;
    assert total == q * d + m - d + 1;
    assert q * d >= total by {
      assert m - d + 1 <= 0;
    }
    assert (q - 1) * d == q * d - d;
  }

  /** A page number within `TotalPages` starts inside the filtered documents, and a later one is
      empty, provided there is something to show. */
  lemma PageWithinTotal(total: nat, page: int, pageSize: int)
    requires page >= 1 && pageSize >= 1 && total >= 1
    ensures Skip(page, pageSize) < total <==> page <= TotalPages(total, pageSize)
  {
    var t := TotalPages(total, pageSize);
    if page <= t {
      assert (page - 1) * pageSize <= (t - 1) * pageSize by {
        MulMonotone(page - 1, t - 1, pageSize);
      }
    } else {
      assert t * pageSize <= (page - 1) * pageSize by {
        MulMonotone(t, page - 1, pageSize);
      }
    }
  }

  lemma MulMonotone(a: int, b: int, c: nat)
    requires a <= b
    ensures a * c <= b * c
  {
  }
}
