/** Sequence facts the stores rely on. Go leaves the iteration order of
    `range` over a map unspecified, so a model of code that ranges over a map
    takes the order as a parameter: any sequence that lists every key exactly
    once. Mongo's `$pull` keeps the array elements that do not match, which
    is `Filter`. */
module Collections {

  predicate NoDuplicates<T(==)>(s: seq<T>) {
    forall i, j :: 0 <= i < j < |s| ==> s[i] != s[j]
  }

  /** `order` is one order in which `range` may visit the keys of `m`. */
  ghost predicate Enumerates<K(!new), V>(order: seq<K>, m: map<K, V>) {
    NoDuplicates(order) && (forall k :: k in order <==> k in m)
  }

  /** A sequence has no duplicates exactly when no value occurs twice in it. */
  lemma {:induction false} NoDuplicatesCount<T>(s: seq<T>)
    ensures NoDuplicates(s) <==> forall x :: multiset(s)[x] <= 1
    decreases |s|
  {
    if |s| > 0 {
      var t := s[1..];
      assert s == [s[0]] + t;
      NoDuplicatesCount(t);
      if NoDuplicates(s) {
        assert NoDuplicates(t) by {
          forall i, j | 0 <= i < j < |t| ensures t[i] != t[j] {
            assert t[i] == s[i + 1] && t[j] == s[j + 1];
          }
        }
        assert s[0] !in t by {
          assert forall j :: 0 <= j < |t| ==> t[j] == s[j + 1];
        }
        forall x ensures multiset(s)[x] <= 1 {
          assert multiset(s)[x] == (if x == s[0] then 1 else 0) + multiset(t)[x];
        }
      }
      if forall x :: multiset(s)[x] <= 1 {
        forall i, j | 0 <= i < j < |s| ensures s[i] != s[j] {
          var x := s[j];
          assert s == s[..j] + s[j..];
          assert s[i] in s[..j];
          assert x in s[j..] by { assert s[j..][0] == x; }
          assert multiset(s)[x] == multiset(s[..j])[x] + multiset(s[j..])[x];
        }
      }
    }
  }

  /** A rearrangement of a duplicate-free sequence is duplicate-free. */
  lemma PermutationNoDuplicates<T>(a: seq<T>, b: seq<T>)
    requires multiset(a) == multiset(b)
    requires NoDuplicates(a)
    ensures NoDuplicates(b)
  {
    NoDuplicatesCount(a);
    NoDuplicatesCount(b);
  }

  /** Two duplicate-free sequences with the same members are permutations of
      each other. */
  lemma DistinctSameMembers<T>(a: seq<T>, b: seq<T>)
    requires NoDuplicates(a) && NoDuplicates(b)
    requires forall x :: x in a <==> x in b
    ensures multiset(a) == multiset(b)
  {
    NoDuplicatesCount(a);
    NoDuplicatesCount(b);
    forall x ensures multiset(a)[x] == multiset(b)[x] {
      assert x in a <==> x in multiset(a);
      assert x in b <==> x in multiset(b);
    }
  }

  /** Any two iteration orders of one map visit the same keys, so they are
      permutations of each other. */
  lemma EnumerationsArePermutations<K(!new), V>(a: seq<K>, b: seq<K>, m: map<K, V>)
    requires Enumerates(a, m) && Enumerates(b, m)
    ensures multiset(a) == multiset(b)
  {
    DistinctSameMembers(a, b);
  }

  /** The set of values occurring in `s`. */
  function Members<T(!new)>(s: seq<T>): (r: set<T>)
    ensures forall x :: x in r <==> x in s
    ensures |r| <= |s|
    decreases |s|
  {
    if |s| == 0 then {}
    else
      assert forall x :: x in s <==> x == s[0] || x in s[1..] by { assert s == [s[0]] + s[1..]; }
      {s[0]} + Members(s[1..])
  }

  /** A duplicate-free sequence is as long as the set of its members. */
  lemma {:induction false} NoDuplicatesCardinality<T(!new)>(s: seq<T>)
    requires NoDuplicates(s)
    ensures |Members(s)| == |s|
    decreases |s|
  {
    if |s| > 0 {
      var t := s[1..];
      assert forall j :: 0 <= j < |t| ==> t[j] == s[j + 1];
      NoDuplicatesCardinality(t);
      assert s[0] !in Members(t);
    }
  }

  /** An iteration order visits as many keys as the map holds. */
  lemma EnumerationLength<K(!new), V>(order: seq<K>, m: map<K, V>)
    requires Enumerates(order, m)
    ensures |order| == |m|
  {
    NoDuplicatesCardinality(order);
    assert Members(order) == m.Keys;
  }

  /** Some key maps to each value of a map. */
  lemma ValueKey<K, V>(m: map<K, V>, v: V) returns (k: K)
    requires v in m.Values
    ensures k in m && m[k] == v
  {
    k :| k in m && m[k] == v;
  }

  /** A rearrangement has the same members. */
  lemma SameMembers<T>(a: seq<T>, b: seq<T>)
    requires multiset(a) == multiset(b)
    ensures forall x :: x in a <==> x in b
  {
    forall x ensures x in a <==> x in b {
      assert x in a <==> x in multiset(a);
      assert x in b <==> x in multiset(b);
    }
  }

  /** The index of the first element `p` accepts, or -1 when it accepts none. */
  function FindFirst<T>(s: seq<T>, p: T -> bool): (r: int)
    ensures -1 <= r < |s|
    ensures r == -1 <==> forall i :: 0 <= i < |s| ==> !p(s[i])
    ensures r >= 0 ==> p(s[r]) && forall i :: 0 <= i < r ==> !p(s[i])
    decreases |s|
  {
    if |s| == 0 then -1
    else if p(s[0]) then 0
    else
      var k := FindFirst(s[1..], p);
      assert forall i :: 1 <= i < |s| ==> s[i] == s[1..][i - 1];
      if k == -1 then -1 else k + 1
  }

  /** The elements of `s` that `keep` accepts, in their original order. */
  function Filter<T>(s: seq<T>, keep: T -> bool): (r: seq<T>)
    ensures |r| <= |s|
    ensures forall i :: 0 <= i < |r| ==> r[i] in s && keep(r[i])
    ensures forall i :: 0 <= i < |s| && keep(s[i]) ==> s[i] in r
    decreases |s|
  {
    if |s| == 0 then []
    else
      assert s == [s[0]] + s[1..];
      (if keep(s[0]) then [s[0]] else []) + Filter(s[1..], keep)
  }

  /** Filtering keeps a sequence free of duplicates. */
  lemma {:induction false} FilterNoDuplicates<T>(s: seq<T>, keep: T -> bool)
    requires NoDuplicates(s)
    ensures NoDuplicates(Filter(s, keep))
    decreases |s|
  {
    if |s| > 0 {
      var t := s[1..];
      assert forall j :: 0 <= j < |t| ==> t[j] == s[j + 1];
      FilterNoDuplicates(t, keep);
      assert s[0] !in t;
    }
  }

  lemma {:induction false} FilterAppend<T>(a: seq<T>, b: seq<T>, keep: T -> bool)
    ensures Filter(a + b, keep) == Filter(a, keep) + Filter(b, keep)
    decreases |a|
  {
    if |a| == 0 {
      assert a + b == b;
    } else {
      assert (a + b)[0] == a[0];
      assert (a + b)[1..] == a[1..] + b;
      FilterAppend(a[1..], b, keep);
    }
  }

  /** Filtering a sequence whose elements are all kept changes nothing. */
  lemma {:induction false} FilterKeepsAll<T>(s: seq<T>, keep: T -> bool)
    requires forall i :: 0 <= i < |s| ==> keep(s[i])
    ensures Filter(s, keep) == s
    decreases |s|
  {
    if |s| > 0 {
      FilterKeepsAll(s[1..], keep);
      assert s == [s[0]] + s[1..];
    }
  }

  /** When exactly the element at `i` is rejected, filtering removes just it. */
  lemma {:induction false} FilterDropsOne<T>(s: seq<T>, i: nat, keep: T -> bool)
    requires i < |s| && !keep(s[i])
    requires forall j :: 0 <= j < |s| && j != i ==> keep(s[j])
    ensures Filter(s, keep) == s[..i] + s[i + 1..]
    decreases i
  {
    var t := s[1..];
    if i == 0 {
      assert Filter(t, keep) == t by {
        assert forall j :: 0 <= j < |t| ==> t[j] == s[j + 1];
        FilterKeepsAll(t, keep);
      }
      assert s[..0] + s[1..] == t;
    } else {
      assert keep(s[0]);
      assert Filter(t, keep) == t[..i - 1] + t[i..] by {
        assert forall j :: 0 <= j < |t| ==> t[j] == s[j + 1];
        FilterDropsOne(t, i - 1, keep);
      }
      ConsAround(s, i);
    }
  }

  /** Putting the head back in front of the tail with its (i-1)-th element
      left out leaves out the i-th element of the whole. */
  lemma ConsAround<T>(s: seq<T>, i: nat)
    requires 0 < i < |s|
    ensures [s[0]] + (s[1..][..i - 1] + s[1..][i..]) == s[..i] + s[i + 1..]
  {
    assert s[1..][..i - 1] == s[1..i] && s[1..][i..] == s[i + 1..];
    assert [s[0]] + s[1..i] == s[..i];
  }
}
