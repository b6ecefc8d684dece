/** Sequence combinators behind the array idioms the front end relies on:
    `filter`, `findIndex`/`indexOf`, first-occurrence deduplication (a `Set`
    built from an array, or `filter` with `findIndex(...) === i`), the
    `indexOf(v) !== i` repeat filter, and `sort` with a numeric comparator. */
module Seqs {

  /** The identity, used as the key of a plain-value search (`indexOf`). */
  function Id<T>(x: T): T { x }

  /** `a` is `b` with some elements deleted and the rest kept in order. */
  predicate IsSubsequence<T(==)>(a: seq<T>, b: seq<T>)
    decreases |b|
  {
    if |b| == 0 then |a| == 0
    else
      (|a| > 0 && a[0] == b[0] && IsSubsequence(a[1..], b[1..]))
      || IsSubsequence(a, b[1..])
  }

  /** A subsequence is no longer than, and drawn from, its source. */
  lemma {:induction false} SubsequenceMembers<T>(a: seq<T>, b: seq<T>)
    requires IsSubsequence(a, b)
    ensures |a| <= |b|
    ensures forall x :: x in a ==> x in b
    decreases |b|
  {
    if |b| == 0 {
    } else if |a| > 0 && a[0] == b[0] && IsSubsequence(a[1..], b[1..]) {
      SubsequenceMembers(a[1..], b[1..]);
      assert forall x :: x in a ==> x == a[0] || x in a[1..];
    } else {
      SubsequenceMembers(a, b[1..]);
    }
  }

  /** Every sequence is a subsequence of itself. */
  lemma {:induction false} SubsequenceReflexive<T>(s: seq<T>)
    ensures IsSubsequence(s, s)
    decreases |s|
  {
    if |s| > 0 {
      SubsequenceReflexive(s[1..]);
    }
  }

  /** `Array.prototype.filter`: the elements satisfying `p`, in order. */
  function Filter<T(==,!new)>(p: T -> bool, s: seq<T>): (r: seq<T>)
    ensures IsSubsequence(r, s)
    ensures forall i :: 0 <= i < |r| ==> p(r[i])
    ensures forall i :: 0 <= i < |s| && p(s[i]) ==> s[i] in r
    ensures forall x :: multiset(r)[x] == if p(x) then multiset(s)[x] else 0
    decreases |s|
  {
    if |s| == 0 then []
    else
      assert s == [s[0]] + s[1..];
      if p(s[0]) then [s[0]] + Filter(p, s[1..]) else Filter(p, s[1..])
  }

  /** An element is kept by a filter exactly when it occurs and satisfies
      the predicate. */
  lemma FilterMembers<T(!new)>(p: T -> bool, s: seq<T>, x: T)
    ensures x in Filter(p, s) <==> x in s && p(x)
  {
    assert x in Filter(p, s) <==> multiset(Filter(p, s))[x] > 0;
    assert x in s <==> multiset(s)[x] > 0;
  }

  /** `Array.prototype.some`. */
  function Any<T>(p: T -> bool, s: seq<T>): (b: bool)
    ensures b <==> exists i :: 0 <= i < |s| && p(s[i])
    decreases |s|
  {
    if |s| == 0 then false
    else
      assert forall i :: 0 < i < |s| ==> s[i] == s[1..][i - 1];
      p(s[0]) || Any(p, s[1..])
  }

  /** Filtering distributes over concatenation. */
  lemma {:induction false} FilterConcat<T(!new)>(p: T -> bool, a: seq<T>, b: seq<T>)
    ensures Filter(p, a + b) == Filter(p, a) + Filter(p, b)
    decreases |a|
  {
    if |a| > 0 {
      assert (a + b)[1..] == a[1..] + b;
      FilterConcat(p, a[1..], b);
    } else {
      assert a + b == b;
    }
  }

  /** Filters whose predicates agree on the elements give the same result. */
  lemma {:induction false} FilterCongruent<T(!new)>(p: T -> bool, q: T -> bool, s: seq<T>)
    requires forall i :: 0 <= i < |s| ==> p(s[i]) == q(s[i])
    ensures Filter(p, s) == Filter(q, s)
    decreases |s|
  {
    if |s| > 0 {
      FilterCongruent(p, q, s[1..]);
    }
  }

  /** Two filters applied one after the other commute. */
  lemma {:induction false} FilterCommute<T(!new)>(p: T -> bool, q: T -> bool, s: seq<T>)
    ensures Filter(p, Filter(q, s)) == Filter(q, Filter(p, s))
    decreases |s|
  {
    if |s| > 0 {
      FilterCommute(p, q, s[1..]);
    }
  }

  /** A filter whose predicate holds everywhere keeps the whole sequence. */
  lemma {:induction false} FilterKeepsAll<T(!new)>(p: T -> bool, s: seq<T>)
    requires forall i :: 0 <= i < |s| ==> p(s[i])
    ensures Filter(p, s) == s
    decreases |s|
  {
    if |s| > 0 {
      FilterKeepsAll(p, s[1..]);
    }
  }

  /** The number of elements satisfying `p` (`filter(p).length`). */
  function Count<T(==,!new)>(p: T -> bool, s: seq<T>): nat {
    |Filter(p, s)|
  }

  /** Two predicates no element satisfies together count at most `|s|`. */
  lemma {:induction false} CountDisjoint<T(!new)>(p: T -> bool, q: T -> bool, s: seq<T>)
    requires forall i :: 0 <= i < |s| ==> !(p(s[i]) && q(s[i]))
    ensures Count(p, s) + Count(q, s) <= |s|
    decreases |s|
  {
    if |s| > 0 {
      CountDisjoint(p, q, s[1..]);
    }
  }

  /** When every element satisfies exactly one of two predicates, their
      counts add up to `|s|`. */
  lemma {:induction false} CountComplement<T(!new)>(p: T -> bool, q: T -> bool, s: seq<T>)
    requires forall i :: 0 <= i < |s| ==> p(s[i]) != q(s[i])
    ensures Count(p, s) + Count(q, s) == |s|
    decreases |s|
  {
    if |s| > 0 {
      CountComplement(p, q, s[1..]);
    }
  }

  /** `findIndex(x => key(x) === k)`: the first index whose key is `k`, or -1. */
  function KeyIndex<T, K(==)>(s: seq<T>, key: T -> K, k: K): (r: int)
    ensures -1 <= r < |s|
    ensures r == -1 <==> forall i :: 0 <= i < |s| ==> key(s[i]) != k
    ensures 0 <= r ==> key(s[r]) == k && forall i :: 0 <= i < r ==> key(s[i]) != k
    decreases |s|
  {
    if |s| == 0 then -1
    else if key(s[0]) == k then 0
    else
      var j := KeyIndex(s[1..], key, k);
      if j == -1 then -1 else j + 1
  }

  /** The set of keys occurring in `s`. */
  function Keys<T, K>(s: seq<T>, key: T -> K): set<K> {
    set i | 0 <= i < |s| :: key(s[i])
  }

  lemma KeysCons<T, K>(x: T, s: seq<T>, key: T -> K)
    ensures Keys([x] + s, key) == {key(x)} + Keys(s, key)
  {
    var t := [x] + s;
    forall k | k in Keys(t, key) ensures k in {key(x)} + Keys(s, key) {
      var i :| 0 <= i < |t| && key(t[i]) == k;
      if i > 0 {
        assert t[i] == s[i - 1];
      }
    }
    forall k | k in Keys(s, key) ensures k in Keys(t, key) {
      var i :| 0 <= i < |s| && key(s[i]) == k;
      assert t[i + 1] == s[i];
    }
    assert t[0] == x;
  }

  lemma KeysSnoc<T, K>(s: seq<T>, x: T, key: T -> K)
    ensures Keys(s + [x], key) == Keys(s, key) + {key(x)}
  {
    var t := s + [x];
    forall k | k in Keys(t, key) ensures k in Keys(s, key) + {key(x)} {
      var i :| 0 <= i < |t| && key(t[i]) == k;
      if i < |s| {
        assert t[i] == s[i];
      }
    }
    forall k | k in Keys(s, key) ensures k in Keys(t, key) {
      var i :| 0 <= i < |s| && key(s[i]) == k;
      assert t[i] == s[i];
    }
    assert t[|s|] == x;
  }

  /** First-occurrence deduplication by key, skipping keys already `seen`
      (what `Array.from(new Set(...))` does for plain values). */
  function DistinctBy<T(==), K(==)>(s: seq<T>, key: T -> K, seen: set<K>): (r: seq<T>)
    ensures IsSubsequence(r, s)
    ensures forall i, j :: 0 <= i < j < |r| ==> key(r[i]) != key(r[j])
    ensures Keys(r, key) == Keys(s, key) - seen
    ensures forall j :: 0 <= j < |r| ==>
              0 <= KeyIndex(s, key, key(r[j])) && s[KeyIndex(s, key, key(r[j]))] == r[j]
    ensures forall i, j :: 0 <= i < j < |r| ==> KeyIndex(s, key, key(r[i])) < KeyIndex(s, key, key(r[j]))
    decreases |s|
  {
    if |s| == 0 then []
    else
      var rest := DistinctBy(s[1..], key, if key(s[0]) in seen then seen else seen + {key(s[0])});
      DistinctByKeys(s, key, seen, rest);
      DistinctByFirst(s, key, seen, rest);
      DistinctByOrder(s, key, seen, rest);
      if key(s[0]) in seen then rest else [s[0]] + rest
  }

  /** The subsequence, distinctness and key-set clauses of one step of
      `DistinctBy`. */
  lemma DistinctByKeys<T, K>(s: seq<T>, key: T -> K, seen: set<K>, rest: seq<T>)
    requires |s| > 0
    requires IsSubsequence(rest, s[1..])
    requires forall i, j :: 0 <= i < j < |rest| ==> key(rest[i]) != key(rest[j])
    requires Keys(rest, key) == Keys(s[1..], key) - (if key(s[0]) in seen then seen else seen + {key(s[0])})
    ensures var r := if key(s[0]) in seen then rest else [s[0]] + rest;
            && IsSubsequence(r, s)
            && (forall i, j :: 0 <= i < j < |r| ==> key(r[i]) != key(r[j]))
            && Keys(r, key) == Keys(s, key) - seen
  {
    KeysCons(s[0], s[1..], key);
    assert s == [s[0]] + s[1..];
    if key(s[0]) !in seen {
      KeysCons(s[0], rest, key);
      var r := [s[0]] + rest;
      assert r[1..] == rest;
      forall i, j | 0 <= i < j < |r| ensures key(r[i]) != key(r[j]) {
        assert r[j] == rest[j - 1];
        if i == 0 {
          assert key(rest[j - 1]) in Keys(rest, key);
        } else {
          assert r[i] == rest[i - 1];
        }
      }
    }
  }

  /** The first-occurrence clause of one step of `DistinctBy`. */
  lemma DistinctByFirst<T, K>(s: seq<T>, key: T -> K, seen: set<K>, rest: seq<T>)
    requires |s| > 0
    requires Keys(rest, key) == Keys(s[1..], key) - (if key(s[0]) in seen then seen else seen + {key(s[0])})
    requires forall j :: 0 <= j < |rest| ==>
               0 <= KeyIndex(s[1..], key, key(rest[j])) && s[1..][KeyIndex(s[1..], key, key(rest[j]))] == rest[j]
    ensures var r := if key(s[0]) in seen then rest else [s[0]] + rest;
            forall j :: 0 <= j < |r| ==>
              0 <= KeyIndex(s, key, key(r[j])) && s[KeyIndex(s, key, key(r[j]))] == r[j]
  {
    forall j | 0 <= j < |rest|
      ensures KeyIndex(s, key, key(rest[j])) == KeyIndex(s[1..], key, key(rest[j])) + 1
    {
      assert key(rest[j]) in Keys(rest, key);
    }
  }

  /** The first-occurrence order clause of one step of `DistinctBy`: the
      kept elements appear in the order their keys first occur. */
  lemma DistinctByOrder<T, K>(s: seq<T>, key: T -> K, seen: set<K>, rest: seq<T>)
    requires |s| > 0
    requires Keys(rest, key) == Keys(s[1..], key) - (if key(s[0]) in seen then seen else seen + {key(s[0])})
    requires forall i, j :: 0 <= i < j < |rest| ==>
               KeyIndex(s[1..], key, key(rest[i])) < KeyIndex(s[1..], key, key(rest[j]))
    ensures var r := if key(s[0]) in seen then rest else [s[0]] + rest;
            forall i, j :: 0 <= i < j < |r| ==> KeyIndex(s, key, key(r[i])) < KeyIndex(s, key, key(r[j]))
  {
    forall j | 0 <= j < |rest|
      ensures 1 <= KeyIndex(s, key, key(rest[j])) == KeyIndex(s[1..], key, key(rest[j])) + 1
    {
      assert key(rest[j]) in Keys(rest, key);
    }
    if key(s[0]) !in seen {
      var r := [s[0]] + rest;
      forall i, j | 0 <= i < j < |r| ensures KeyIndex(s, key, key(r[i])) < KeyIndex(s, key, key(r[j])) {
        assert r[j] == rest[j - 1];
        if i > 0 {
          assert r[i] == rest[i - 1];
        }
      }
    }
  }

  /** Under the identity key, the keys of a sequence are its members. */
  lemma KeysOfId<T>(s: seq<T>)
    ensures forall x :: x in Keys(s, Id) <==> x in s
  {
    forall x | x in s ensures x in Keys(s, Id) {
      var i :| 0 <= i < |s| && s[i] == x;
      assert Id(s[i]) in Keys(s, Id);
    }
  }

  /** `Array.from(new Set(s))`: every value once, in the order of first
      occurrence. */
  function Dedupe<T(==,!new)>(s: seq<T>): (r: seq<T>)
    ensures IsSubsequence(r, s)
    ensures forall i, j :: 0 <= i < j < |r| ==> r[i] != r[j]
    ensures forall x :: x in r <==> x in s
    ensures forall i, j :: 0 <= i < j < |r| ==> KeyIndex(s, Id, r[i]) < KeyIndex(s, Id, r[j])
  {
    var r := DistinctBy(s, Id, {});
    KeysOfId(r);
    KeysOfId(s);
    assert forall i, j :: 0 <= i < j < |r| ==> Id(r[i]) != Id(r[j]);
    r
  }

  /** `arr.filter((x, i) => arr.findIndex(y => key(y) === key(x)) === i)`,
      taken from index `i` on. */
  function FirstOccurrencesFrom<T, K(==)>(arr: seq<T>, key: T -> K, i: nat): seq<T>
    requires i <= |arr|
    decreases |arr| - i
  {
    if i == |arr| then []
    else
      (if KeyIndex(arr, key, key(arr[i])) == i then [arr[i]] else [])
      + FirstOccurrencesFrom(arr, key, i + 1)
  }

  /** `findIndex` lands on `i` exactly when no earlier element shares its key. */
  lemma FirstIndexIffUnseen<T, K>(arr: seq<T>, key: T -> K, i: nat)
    requires i < |arr|
    ensures (KeyIndex(arr, key, key(arr[i])) == i) <==> key(arr[i]) !in Keys(arr[..i], key)
  {
    var k := key(arr[i]);
    var r := KeyIndex(arr, key, k);
    if k in Keys(arr[..i], key) {
      var j :| 0 <= j < i && key(arr[..i][j]) == k;
      assert key(arr[j]) == k;
    } else {
      forall j | 0 <= j < i ensures key(arr[j]) != k {
        assert arr[j] == arr[..i][j];
      }
    }
  }

  /** One step of `DistinctBy`, with the keys already seen being a prefix's keys. */
  lemma DistinctByStep<T, K>(arr: seq<T>, key: T -> K, i: nat)
    requires i < |arr|
    ensures DistinctBy(arr[i..], key, Keys(arr[..i], key))
         == (if key(arr[i]) in Keys(arr[..i], key) then [] else [arr[i]])
            + DistinctBy(arr[i + 1..], key, Keys(arr[..i + 1], key))
  {
    var seen, k, s := Keys(arr[..i], key), key(arr[i]), arr[i..];
    assert arr[..i + 1] == arr[..i] + [arr[i]];
    KeysSnoc(arr[..i], arr[i], key);
    var seen' := if k in seen then seen else seen + {k};
    assert seen' == Keys(arr[..i + 1], key);
    assert s[0] == arr[i] && s[1..] == arr[i + 1..];
    assert DistinctBy(s, key, seen)
        == (if k in seen then [] else [s[0]]) + DistinctBy(s[1..], key, seen');
  }

  /** The index-based first-occurrence filter agrees with `DistinctBy`. */
  lemma {:induction false} FirstOccurrencesAreDistinct<T, K>(arr: seq<T>, key: T -> K, i: nat)
    requires i <= |arr|
    ensures FirstOccurrencesFrom(arr, key, i) == DistinctBy(arr[i..], key, Keys(arr[..i], key))
    decreases |arr| - i
  {
    if i < |arr| {
      FirstIndexIffUnseen(arr, key, i);
      DistinctByStep(arr, key, i);
      FirstOccurrencesAreDistinct(arr, key, i + 1);
    }
  }

  /** `arr.filter((v, i) => arr.indexOf(v) !== i)`, taken from index `i` on:
      every element that repeats an earlier one. */
  function RepeatsFrom<T(==)>(vs: seq<T>, i: nat): seq<T>
    requires i <= |vs|
    decreases |vs| - i
  {
    if i == |vs| then []
    else (if KeyIndex(vs, Id, vs[i]) != i then [vs[i]] else []) + RepeatsFrom(vs, i + 1)
  }

  /** Two positions of `vs` hold the same value. */
  predicate HasDuplicate<T(==)>(vs: seq<T>) {
    exists i, j :: 0 <= i < j < |vs| && vs[i] == vs[j]
  }

  /** The repeat filter from `i` is non-empty exactly when some element at or
      after `i` equals an earlier one. */
  lemma {:induction false} RepeatsFromNonEmpty<T>(vs: seq<T>, i: nat)
    requires i <= |vs|
    ensures |RepeatsFrom(vs, i)| > 0 <==> exists a, b :: 0 <= a < b < |vs| && i <= b && vs[a] == vs[b]
    decreases |vs| - i
  {
    if i < |vs| {
      RepeatsFromNonEmpty(vs, i + 1);
      var m := KeyIndex(vs, Id, vs[i]);
      assert Id(vs[i]) == vs[i];
      if m != i {
        assert 0 <= m < i && vs[m] == vs[i];
      } else {
        assert forall a :: 0 <= a < i ==> vs[a] != vs[i] by {
          forall a | 0 <= a < i ensures vs[a] != vs[i] {
            assert Id(vs[a]) != vs[i];
          }
        }
      }
    }
  }

  /** Two distinct positions of `s` hold elements with the same key. */
  predicate HasDuplicateBy<T, K(==)>(s: seq<T>, key: T -> K) {
    exists i, j :: 0 <= i < j < |s| && key(s[i]) == key(s[j])
  }

  /** A value occurs at least twice exactly when two positions hold it. */
  lemma {:induction false} MultisetTwoPositions<T>(s: seq<T>, x: T)
    ensures multiset(s)[x] >= 2 <==> exists i, j :: 0 <= i < j < |s| && s[i] == x && s[j] == x
    decreases |s|
  {
    if exists i, j :: 0 <= i < j < |s| && s[i] == x && s[j] == x {
      var i, j :| 0 <= i < j < |s| && s[i] == x && s[j] == x;
      assert s == s[..j] + s[j..];
      assert s[..j][i] == x;
      assert s[j..][0] == x;
      assert multiset(s[..j])[x] >= 1 && multiset(s[j..])[x] >= 1;
    }
    if |s| > 0 && multiset(s)[x] >= 2 {
      assert s == [s[0]] + s[1..];
      if s[0] == x {
        assert x in multiset(s[1..]);
        var j :| 0 <= j < |s[1..]| && s[1..][j] == x;
        assert s[j + 1] == x;
      } else {
        MultisetTwoPositions(s[1..], x);
        var i, j :| 0 <= i < j < |s[1..]| && s[1..][i] == x && s[1..][j] == x;
        assert s[i + 1] == x && s[j + 1] == x;
      }
    }
  }

  /** Positions of two distinct values found in `s`, ordered. */
  lemma OrderedPositions<T>(s: seq<T>, x: T, y: T) returns (i: nat, j: nat)
    requires x in s && y in s && x != y
    ensures i < j < |s| && ((s[i] == x && s[j] == y) || (s[i] == y && s[j] == x))
  {
    var a :| 0 <= a < |s| && s[a] == x;
    var b :| 0 <= b < |s| && s[b] == y;
    if a < b { i, j := a, b; } else { i, j := b, a; }
  }

  /** A key repeated in the filtered sequence is repeated by two kept
      positions of the original. */
  lemma FilterDuplicateSource<T(!new), K>(p: T -> bool, s: seq<T>, key: T -> K, a: nat, b: nat)
    requires a < b < |Filter(p, s)| && key(Filter(p, s)[a]) == key(Filter(p, s)[b])
    ensures exists i, j :: 0 <= i < j < |s| && p(s[i]) && p(s[j]) && key(s[i]) == key(s[j])
  {
    var r := Filter(p, s);
    SubsequenceMembers(r, s);
    if r[a] == r[b] {
      MultisetTwoPositions(r, r[a]);
      MultisetTwoPositions(s, r[a]);
      var i, j :| 0 <= i < j < |s| && s[i] == r[a] && s[j] == r[a];
      assert p(s[i]) && p(s[j]) && key(s[i]) == key(s[j]);
    } else {
      var i, j := OrderedPositions(s, r[a], r[b]);
      assert p(s[i]) && p(s[j]) && key(s[i]) == key(s[j]);
    }
  }

  /** Two kept positions sharing a key give a repeat in the filtered
      sequence. */
  lemma FilterDuplicateTarget<T(!new), K>(p: T -> bool, s: seq<T>, key: T -> K, i: nat, j: nat)
    requires i < j < |s| && p(s[i]) && p(s[j]) && key(s[i]) == key(s[j])
    ensures HasDuplicateBy(Filter(p, s), key)
  {
    var r := Filter(p, s);
    if s[i] == s[j] {
      MultisetTwoPositions(s, s[i]);
      MultisetTwoPositions(r, s[i]);
      var a, b :| 0 <= a < b < |r| && r[a] == s[i] && r[b] == s[i];
      assert key(r[a]) == key(r[b]);
    } else {
      var a, b := OrderedPositions(r, s[i], s[j]);
      assert key(r[a]) == key(r[b]);
    }
  }

  /** The filtered sequence repeats a key exactly when two positions of the
      original sequence, both kept by the filter, share that key. */
  lemma FilterDuplicateBy<T(!new), K>(p: T -> bool, s: seq<T>, key: T -> K)
    ensures HasDuplicateBy(Filter(p, s), key)
        <==> exists i, j :: 0 <= i < j < |s| && p(s[i]) && p(s[j]) && key(s[i]) == key(s[j])
  {
    var r := Filter(p, s);
    if HasDuplicateBy(r, key) {
      var a, b :| 0 <= a < b < |r| && key(r[a]) == key(r[b]);
      FilterDuplicateSource(p, s, key, a, b);
    }
    if exists i, j :: 0 <= i < j < |s| && p(s[i]) && p(s[j]) && key(s[i]) == key(s[j]) {
      var i, j :| 0 <= i < j < |s| && p(s[i]) && p(s[j]) && key(s[i]) == key(s[j]);
      FilterDuplicateTarget(p, s, key, i, j);
    }
  }

  /** Sorted ascending by an integer key (the comparator `key(a) - key(b)`). */
  predicate SortedBy<T>(s: seq<T>, key: T -> int) {
    forall i, j :: 0 <= i < j < |s| ==> key(s[i]) <= key(s[j])
  }

  /** Insert `x` before the first element whose key is not smaller. */
  function InsertBy<T>(x: T, s: seq<T>, key: T -> int): (r: seq<T>)
    requires SortedBy(s, key)
    ensures SortedBy(r, key)
    ensures |r| == |s| + 1
    ensures multiset(r) == multiset(s) + multiset{x}
    ensures r[0] == x || (|s| > 0 && r[0] == s[0])
    decreases |s|
  {
    if |s| == 0 || key(x) <= key(s[0]) then [x] + s
    else
      assert s == [s[0]] + s[1..];
      [s[0]] + InsertBy(x, s[1..], key)
  }

  /** A stable insertion sort by `key`, ascending. */
  function SortBy<T>(s: seq<T>, key: T -> int): (r: seq<T>)
    ensures SortedBy(r, key)
    ensures |r| == |s|
    ensures multiset(r) == multiset(s)
    decreases |s|
  {
    if |s| == 0 then []
    else
      assert s == [s[0]] + s[1..];
      InsertBy(s[0], SortBy(s[1..], key), key)
  }
}
