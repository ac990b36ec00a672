/** Ranking by score: the stable descending sort that `Array.prototype.sort`
    performs with the comparator `(a, b) => b.score - a.score` (ECMAScript
    2019 requires the sort to be stable), and the positive-score selection
    with its fallback (api/generate.js:133-145). Generic over the scored
    items and their key. */
module Ranking {

  predicate NonIncreasing<T>(s: seq<T>, key: T -> real) {
    forall i, j :: 0 <= i < j < |s| ==> key(s[i]) >= key(s[j])
  }

  /** The elements of `s` whose key is `k`, in their order in `s`. */
  function KeyClass<T>(s: seq<T>, key: T -> real, k: real): seq<T>
    decreases |s|
  {
    if s == [] then [] else (if key(s[0]) == k then [s[0]] else []) + KeyClass(s[1..], key, k)
  }

  /** `r` holds the elements of `s` with non-increasing keys, and elements
      with equal keys in the order they have in `s`. */
  ghost predicate StablySorted<T>(r: seq<T>, s: seq<T>, key: T -> real) {
    NonIncreasing(r, key) && forall k :: KeyClass(r, key, k) == KeyClass(s, key, k)
  }

  /** Insert `x` after every leading element whose key is at least its own. */
  function Insert<T>(x: T, r: seq<T>, key: T -> real): seq<T>
    decreases |r|
  {
    if r == [] then [x]
    else if key(r[0]) >= key(x) then [r[0]] + Insert(x, r[1..], key)
    else [x] + r
  }

  /** Insertion sort, descending by key, ties in input order. */
  function SortDesc<T>(s: seq<T>, key: T -> real): seq<T>
    decreases |s|
  {
    if s == [] then [] else Insert(s[|s| - 1], SortDesc(s[..|s| - 1], key), key)
  }

  lemma {:induction false} KeyClassConcat<T>(a: seq<T>, b: seq<T>, key: T -> real, k: real)
    ensures KeyClass(a + b, key, k) == KeyClass(a, key, k) + KeyClass(b, key, k)
    decreases |a|
  {
    if a == [] {
      assert a + b == b;
    } else {
      var head := if key(a[0]) == k then [a[0]] else [];
      assert (a + b)[0] == a[0];
      assert (a + b)[1..] == a[1..] + b;
      assert KeyClass(a + b, key, k) == head + KeyClass(a[1..] + b, key, k);
      KeyClassConcat(a[1..], b, key, k);
      assert KeyClass(a, key, k) == head + KeyClass(a[1..], key, k);
    }
  }

  /** A key class is empty exactly when no element has that key. */
  lemma {:induction false} KeyClassEmpty<T>(s: seq<T>, key: T -> real, k: real)
    ensures KeyClass(s, key, k) == [] <==> forall i :: 0 <= i < |s| ==> key(s[i]) != k
    decreases |s|
  {
    if s != [] {
      KeyClassEmpty(s[1..], key, k);
      assert forall i :: 1 <= i < |s| ==> s[i] == s[1..][i - 1];
    }
  }

  lemma {:induction false} InsertMultiset<T>(x: T, r: seq<T>, key: T -> real)
    ensures multiset(Insert(x, r, key)) == multiset(r) + multiset{x}
    decreases |r|
  {
    if r != [] && key(r[0]) >= key(x) {
      InsertMultiset(x, r[1..], key);
      assert r == [r[0]] + r[1..];
    }
  }

  lemma {:induction false} InsertNonIncreasing<T>(x: T, r: seq<T>, key: T -> real)
    requires NonIncreasing(r, key)
    ensures NonIncreasing(Insert(x, r, key), key)
    decreases |r|
  {
    if r != [] && key(r[0]) >= key(x) {
      var rest := Insert(x, r[1..], key);
      InsertNonIncreasing(x, r[1..], key);
      InsertMultiset(x, r[1..], key);
      forall j | 0 <= j < |rest| ensures key(r[0]) >= key(rest[j]) {
        assert rest[j] in multiset(rest);
        if rest[j] != x {
          assert rest[j] in r[1..];
        }
      }
    }
  }

  lemma {:induction false} InsertKeyClass<T>(x: T, r: seq<T>, key: T -> real, k: real)
    requires NonIncreasing(r, key)
    ensures KeyClass(Insert(x, r, key), key, k) == KeyClass(r, key, k) + (if key(x) == k then [x] else [])
    decreases |r|
  {
    if r == [] {
    } else if key(r[0]) >= key(x) {
      var rest := Insert(x, r[1..], key);
      InsertKeyClass(x, r[1..], key, k);
      KeyClassConcat([r[0]], rest, key, k);
      KeyClassConcat([r[0]], r[1..], key, k);
      assert r == [r[0]] + r[1..];
    } else {
      KeyClassConcat([x], r, key, k);
      if key(x) == k {
        KeyClassEmpty(r, key, k);
      }
    }
  }

  /** The insertion sort is a stable descending sort and a permutation. */
  lemma {:induction false} SortDescSpec<T>(s: seq<T>, key: T -> real)
    ensures StablySorted(SortDesc(s, key), s, key)
    ensures multiset(SortDesc(s, key)) == multiset(s)
    decreases |s|
  {
    if s != [] {
      var init, x := s[..|s| - 1], s[|s| - 1];
      SortDescSpec(init, key);
      InsertNonIncreasing(x, SortDesc(init, key), key);
      InsertMultiset(x, SortDesc(init, key), key);
      assert s == init + [x];
      forall k ensures KeyClass(SortDesc(s, key), key, k) == KeyClass(s, key, k) {
        InsertKeyClass(x, SortDesc(init, key), key, k);
        KeyClassConcat(init, [x], key, k);
      }
    }
  }

  lemma MaxKeyFirst<T>(s: seq<T>, key: T -> real, k: real)
    requires NonIncreasing(s, key) && s != [] && KeyClass(s, key, k) != []
    ensures k <= key(s[0])
  {
    KeyClassEmpty(s, key, k);
  }

  /** Stable sorting has one result: any sequence with non-increasing keys
      and the same order within each key is the insertion sort's output, so
      the model's insertion sort stands for any stable sort. */
  lemma {:induction false} StableSortUnique<T>(r1: seq<T>, r2: seq<T>, key: T -> real)
    requires NonIncreasing(r1, key) && NonIncreasing(r2, key)
    requires forall k :: KeyClass(r1, key, k) == KeyClass(r2, key, k)
    ensures r1 == r2
    decreases |r1|
  {
    if r1 == [] || r2 == [] {
      if r1 != [] {
        KeyClassEmpty(r2, key, key(r1[0]));
      } else if r2 != [] {
        KeyClassEmpty(r1, key, key(r2[0]));
      }
    } else {
      var k1, k2 := key(r1[0]), key(r2[0]);
      assert KeyClass(r1, key, k1) != [];
      assert KeyClass(r2, key, k2) != [];
      MaxKeyFirst(r2, key, k1);
      MaxKeyFirst(r1, key, k2);
      assert r1[0] == KeyClass(r1, key, k1)[0] == KeyClass(r2, key, k1)[0] == r2[0];
      forall k ensures KeyClass(r1[1..], key, k) == KeyClass(r2[1..], key, k) {
        TailKeyClass(r1, r2, key, k);
      }
      StableSortUnique(r1[1..], r2[1..], key);
      assert r1 == [r1[0]] + r1[1..] && r2 == [r2[0]] + r2[1..];
    }
  }

  lemma TailKeyClass<T>(r1: seq<T>, r2: seq<T>, key: T -> real, k: real)
    requires r1 != [] && r2 != [] && r1[0] == r2[0]
    requires KeyClass(r1, key, k) == KeyClass(r2, key, k)
    ensures KeyClass(r1[1..], key, k) == KeyClass(r2[1..], key, k)
  {
    var head := if key(r1[0]) == k then [r1[0]] else [];
    var t1, t2 := KeyClass(r1[1..], key, k), KeyClass(r2[1..], key, k);
    assert KeyClass(r1, key, k) == head + t1;
    assert KeyClass(r2, key, k) == head + t2;
    assert t1 == (head + t1)[|head|..];
    assert t2 == (head + t2)[|head|..];
  }

  /** Sorting what is already in order changes nothing, in particular when
      all keys are equal. */
  lemma SortDescIdentity<T>(s: seq<T>, key: T -> real)
    requires NonIncreasing(s, key)
    ensures SortDesc(s, key) == s
  {
    SortDescSpec(s, key);
    StableSortUnique(SortDesc(s, key), s, key);
  }

  // ---------------------------------------------------------------------
  // Selection

  /** `filter(keep)`: the items `keep` accepts, in order. */
  function Filter<T>(keep: T -> bool, s: seq<T>): (r: seq<T>)
    ensures forall i :: 0 <= i < |r| ==> keep(r[i]) && r[i] in s
    decreases |s|
  {
    if s == [] then [] else (if keep(s[0]) then [s[0]] else []) + Filter(keep, s[1..])
  }

  lemma {:induction false} FilterConcat<T>(keep: T -> bool, a: seq<T>, b: seq<T>)
    ensures Filter(keep, a + b) == Filter(keep, a) + Filter(keep, b)
    decreases |a|
  {
    if a == [] {
      assert a + b == b;
    } else {
      assert (a + b)[0] == a[0];
      assert (a + b)[1..] == a[1..] + b;
      FilterConcat(keep, a[1..], b);
    }
  }

  lemma FilterSingle<T>(keep: T -> bool, x: T)
    ensures Filter(keep, [x]) == if keep(x) then [x] else []
  {
    assert [x][1..] == [];
  }

  /** A filter that accepts every item keeps the sequence as it is. */
  lemma {:induction false} FilterAll<T>(keep: T -> bool, s: seq<T>)
    requires forall i :: 0 <= i < |s| ==> keep(s[i])
    ensures Filter(keep, s) == s
    decreases |s|
  {
    if s != [] {
      FilterAll(keep, s[1..]);
      assert s == [s[0]] + s[1..];
    }
  }

  /** `filter((d) => d.score > 0)`. */
  function Positive<T>(s: seq<T>, key: T -> real): seq<T>
    decreases |s|
  {
    if s == [] then [] else (if key(s[0]) > 0.0 then [s[0]] else []) + Positive(s[1..], key)
  }

  /** The filter keeps the positive items in their order: it works piece
      by piece. */
  lemma {:induction false} PositiveConcat<T>(a: seq<T>, b: seq<T>, key: T -> real)
    ensures Positive(a + b, key) == Positive(a, key) + Positive(b, key)
    decreases |a|
  {
    if a == [] {
      assert a + b == b;
    } else {
      var head := if key(a[0]) > 0.0 then [a[0]] else [];
      assert (a + b)[0] == a[0];
      assert (a + b)[1..] == a[1..] + b;
      assert Positive(a + b, key) == head + Positive(a[1..] + b, key);
      PositiveConcat(a[1..], b, key);
      assert Positive(a, key) == head + Positive(a[1..], key);
      assert head + (Positive(a[1..], key) + Positive(b, key)) == (head + Positive(a[1..], key)) + Positive(b, key);
    }
  }

  function Min(a: int, b: int): int {
    if a < b then a else b
  }

  /** `slice(0, n)`. */
  function Take<T>(s: seq<T>, n: nat): seq<T> {
    s[..Min(n, |s|)]
  }

  /** The selection of api/generate.js:143-145 on the ranked list. */
  function SelectTop<T>(ranked: seq<T>, key: T -> real, maxDocs: nat): seq<T> {
    if AnyPositive(ranked, key) then Take(Positive(ranked, key), maxDocs)
    else ranked[..Min(maxDocs, |ranked|)]
  }

  /** Sort, then select. */
  function Rank<T>(s: seq<T>, key: T -> real, maxDocs: nat): seq<T> {
    SelectTop(SortDesc(s, key), key, maxDocs)
  }

  lemma {:induction false} PositiveMultiset<T>(s: seq<T>, key: T -> real)
    ensures multiset(Positive(s, key)) <= multiset(s)
    ensures forall i :: 0 <= i < |Positive(s, key)| ==> key(Positive(s, key)[i]) > 0.0
    decreases |s|
  {
    if s != [] {
      PositiveMultiset(s[1..], key);
      assert s == [s[0]] + s[1..];
    }
  }

  lemma {:induction false} PositiveKeyClass<T>(s: seq<T>, key: T -> real, k: real)
    ensures KeyClass(Positive(s, key), key, k) == if k > 0.0 then KeyClass(s, key, k) else []
    decreases |s|
  {
    if s != [] {
      PositiveKeyClass(s[1..], key, k);
      var head := if key(s[0]) > 0.0 then [s[0]] else [];
      KeyClassConcat(head, Positive(s[1..], key), key, k);
    }
  }

  lemma {:induction false} PositiveNonIncreasing<T>(s: seq<T>, key: T -> real)
    requires NonIncreasing(s, key)
    ensures NonIncreasing(Positive(s, key), key)
    decreases |s|
  {
    if s != [] {
      PositiveNonIncreasing(s[1..], key);
      PositiveMultiset(s[1..], key);
      var p := Positive(s[1..], key);
      forall j | 0 <= j < |p| ensures key(s[0]) >= key(p[j]) {
        assert p[j] in multiset(s[1..]);
      }
    }
  }

  /** `filter` keeps exactly the positive-key elements, in order. */
  lemma PositiveSpec<T>(s: seq<T>, key: T -> real)
    ensures forall i :: 0 <= i < |Positive(s, key)| ==> key(Positive(s, key)[i]) > 0.0
    ensures forall k :: KeyClass(Positive(s, key), key, k) == if k > 0.0 then KeyClass(s, key, k) else []
    ensures NonIncreasing(s, key) ==> NonIncreasing(Positive(s, key), key)
  {
    PositiveMultiset(s, key);
    forall k ensures KeyClass(Positive(s, key), key, k) == if k > 0.0 then KeyClass(s, key, k) else [] {
      PositiveKeyClass(s, key, k);
    }
    if NonIncreasing(s, key) {
      PositiveNonIncreasing(s, key);
    }
  }

  /** Keeping the positive keys commutes with the stable sort. */
  lemma PositiveOfSorted<T>(s: seq<T>, key: T -> real)
    ensures Positive(SortDesc(s, key), key) == SortDesc(Positive(s, key), key)
  {
    var sorted := SortDesc(s, key);
    SortDescSpec(s, key);
    SortDescSpec(Positive(s, key), key);
    PositiveSpec(sorted, key);
    PositiveSpec(s, key);
    StableSortUnique(Positive(sorted, key), SortDesc(Positive(s, key), key), key);
  }

  lemma {:induction false} KeyClassOfPrefix<T>(s: seq<T>, n: nat, key: T -> real, k: real)
    requires n <= |s|
    ensures KeyClass(s[..n], key, k) <= KeyClass(s, key, k)
  {
    assert s == s[..n] + s[n..];
    KeyClassConcat(s[..n], s[n..], key, k);
  }

  predicate AnyPositive<T>(s: seq<T>, key: T -> real) {
    exists i :: 0 <= i < |s| && key(s[i]) > 0.0
  }

  lemma SortKeepsAnyPositive<T>(s: seq<T>, key: T -> real)
    ensures AnyPositive(SortDesc(s, key), key) <==> AnyPositive(s, key)
  {
    var sorted := SortDesc(s, key);
    SortDescSpec(s, key);
    forall i | 0 <= i < |sorted| ensures sorted[i] in s {
      assert sorted[i] in multiset(sorted);
    }
    forall i | 0 <= i < |s| ensures s[i] in sorted {
      assert s[i] in multiset(s);
    }
  }

  /** With some positive score, the selection is the best `maxDocs`
      positive items in stable score order, and holds nothing else. */
  lemma RankPositive<T>(s: seq<T>, key: T -> real, maxDocs: nat)
    requires AnyPositive(s, key)
    ensures Rank(s, key, maxDocs) == Take(SortDesc(Positive(s, key), key), maxDocs)
    ensures forall i :: 0 <= i < |Rank(s, key, maxDocs)| ==> key(Rank(s, key, maxDocs)[i]) > 0.0
  {
    SortKeepsAnyPositive(s, key);
    PositiveOfSorted(s, key);
    PositiveSpec(SortDesc(s, key), key);
  }

  /** With every score 0, the selection is the first `maxDocs` items in
      input order. */
  lemma RankFallback<T>(s: seq<T>, key: T -> real, maxDocs: nat)
    requires forall i :: 0 <= i < |s| ==> key(s[i]) == 0.0
    ensures Rank(s, key, maxDocs) == s[..Min(maxDocs, |s|)]
  {
    SortDescIdentity(s, key);
  }

  /** The selection holds at most `maxDocs` items, with non-increasing
      scores, and items of equal score in input order (a prefix of the
      items of that score). */
  lemma RankOrdered<T>(s: seq<T>, key: T -> real, maxDocs: nat)
    ensures |Rank(s, key, maxDocs)| <= maxDocs
    ensures NonIncreasing(Rank(s, key, maxDocs), key)
    ensures forall k :: KeyClass(Rank(s, key, maxDocs), key, k) <= KeyClass(s, key, k)
  {
    var sorted := SortDesc(s, key);
    var r := Rank(s, key, maxDocs);
    SortDescSpec(s, key);
    PositiveSpec(sorted, key);
    if AnyPositive(sorted, key) {
      var p := Positive(sorted, key);
      forall k ensures KeyClass(r, key, k) <= KeyClass(s, key, k) {
        KeyClassOfPrefix(p, Min(maxDocs, |p|), key, k);
      }
    } else {
      forall k ensures KeyClass(r, key, k) <= KeyClass(s, key, k) {
        KeyClassOfPrefix(sorted, Min(maxDocs, |sorted|), key, k);
      }
    }
  }
}
