/**
 * A stable sort of a sequence by a string key, ascending or descending in
 * code-point order. It models Python's `list.sort(key=..., reverse=...)`,
 * which is stable in both directions, and the comparator sort the front end
 * applies to chart rows whose keys are distinct.
 */
module Sorting {
  import opened Text

  /** Key `a` goes strictly before key `b` in the chosen direction. */
  predicate Before(a: string, b: string, desc: bool) {
    if desc then LexLess(b, a) else LexLess(a, b)
  }

  lemma {:induction false} BeforeTransitive(a: string, b: string, c: string, desc: bool)
    requires Before(a, b, desc) && Before(b, c, desc)
    ensures Before(a, c, desc)
  {
    if desc { LexLessTransitive(c, b, a); } else { LexLessTransitive(a, b, c); }
  }

  /** No element has a key that goes strictly before the key of an earlier element. */
  predicate SortedBy<T>(s: seq<T>, key: T -> string, desc: bool) {
    forall i, j :: 0 <= i < j < |s| ==> !Before(key(s[j]), key(s[i]), desc)
  }

  /** The elements of `s` whose key is `k`, in their order in `s`. */
  function WithKey<T>(s: seq<T>, key: T -> string, k: string): (r: seq<T>)
    ensures |r| <= |s|
  {
    if s == [] then []
    else (if key(s[0]) == k then [s[0]] else []) + WithKey(s[1..], key, k)
  }

  /** Insert `x` after every element whose key does not go strictly after `x`'s key. */
  function Insert<T>(x: T, s: seq<T>, key: T -> string, desc: bool): seq<T> {
    if s == [] then [x]
    else if Before(key(x), key(s[0]), desc) then [x] + s
    else [s[0]] + Insert(x, s[1..], key, desc)
  }

  /** Insertion sort, taking the elements from left to right. */
  function Sort<T>(s: seq<T>, key: T -> string, desc: bool): seq<T> {
    if s == [] then [] else Insert(s[|s| - 1], Sort(s[..|s| - 1], key, desc), key, desc)
  }

  lemma {:induction false} WithKeyAppend<T>(a: seq<T>, b: seq<T>, key: T -> string, k: string)
    ensures WithKey(a + b, key, k) == WithKey(a, key, k) + WithKey(b, key, k)
  {
    if a == [] {
      assert a + b == b;
    } else {
      var c := a + b;
      assert c[0] == a[0];
      assert c[1..] == a[1..] + b;
      WithKeyAppend(a[1..], b, key, k);
      var h := if key(a[0]) == k then [a[0]] else [];
      calc {
        WithKey(c, key, k);
        h + WithKey(c[1..], key, k);
        h + (WithKey(a[1..], key, k) + WithKey(b, key, k));
        (h + WithKey(a[1..], key, k)) + WithKey(b, key, k);
        WithKey(a, key, k) + WithKey(b, key, k);
      }
    }
  }

  /** In a sorted sequence the tail is sorted. */
  lemma {:induction false} SortedTail<T>(s: seq<T>, key: T -> string, desc: bool)
    requires SortedBy(s, key, desc) && s != []
    ensures SortedBy(s[1..], key, desc)
  {
    forall i, j | 0 <= i < j < |s| - 1 ensures !Before(key(s[1..][j]), key(s[1..][i]), desc) {
      assert s[1..][j] == s[j + 1] && s[1..][i] == s[i + 1];
    }
  }

  lemma {:induction false} WithKeyNone<T>(s: seq<T>, key: T -> string, k: string)
    requires forall i :: 0 <= i < |s| ==> key(s[i]) != k
    ensures WithKey(s, key, k) == []
  {
    if s != [] {
      WithKeyNone(s[1..], key, k);
    }
  }

  lemma {:induction false} InsertPermutation<T>(x: T, s: seq<T>, key: T -> string, desc: bool)
    ensures multiset(Insert(x, s, key, desc)) == multiset(s) + multiset{x}
  {
    if s != [] && !Before(key(x), key(s[0]), desc) {
      InsertPermutation(x, s[1..], key, desc);
      assert s == [s[0]] + s[1..];
    }
  }

  lemma {:induction false} InsertSorted<T>(x: T, s: seq<T>, key: T -> string, desc: bool)
    requires SortedBy(s, key, desc)
    ensures SortedBy(Insert(x, s, key, desc), key, desc)
  {
    var r := Insert(x, s, key, desc);
    if s == [] {
    } else if Before(key(x), key(s[0]), desc) {
      assert r == [x] + s;
      forall j | 0 <= j < |s| ensures !Before(key(s[j]), key(x), desc) {
        if Before(key(s[j]), key(x), desc) {
          BeforeTransitive(key(s[j]), key(x), key(s[0]), desc);
          if j == 0 {
            LexLessIrreflexive(key(s[0]));
          }
        }
      }
    } else {
      var t := Insert(x, s[1..], key, desc);
      InsertSorted(x, s[1..], key, desc);
      InsertPermutation(x, s[1..], key, desc);
      assert r == [s[0]] + t;
      forall j | 0 <= j < |t| ensures !Before(key(t[j]), key(s[0]), desc) {
        assert t[j] in multiset(t);
        if t[j] != x {
          assert t[j] in multiset(s[1..]);
          var m :| 0 <= m < |s[1..]| && s[1..][m] == t[j];
          assert s[m + 1] == t[j];
        }
      }
    }
  }

  /** In a sorted sequence, no key goes strictly before the first one. */
  lemma {:induction false} SortedFirst<T>(s: seq<T>, key: T -> string, desc: bool, j: int)
    requires SortedBy(s, key, desc) && 0 < j < |s|
    ensures !Before(key(s[j]), key(s[0]), desc)
  {
  }

  lemma {:induction false} InsertWithKey<T>(x: T, s: seq<T>, key: T -> string, desc: bool, k: string)
    requires SortedBy(s, key, desc)
    ensures WithKey(Insert(x, s, key, desc), key, k) == WithKey(s, key, k) + (if key(x) == k then [x] else [])
  {
    if s == [] {
    } else if Before(key(x), key(s[0]), desc) {
      InsertWithKeyFront(x, s, key, desc, k);
    } else {
      var t := Insert(x, s[1..], key, desc);
      SortedTail(s, key, desc);
      InsertWithKey(x, s[1..], key, desc, k);
      var h := if key(s[0]) == k then [s[0]] else [];
      var e := if key(x) == k then [x] else [];
      var r := [s[0]] + t;
      assert Insert(x, s, key, desc) == r;
      assert r[0] == s[0] && r[1..] == t;
      calc {
        WithKey(r, key, k);
        h + WithKey(t, key, k);
        h + (WithKey(s[1..], key, k) + e);
        (h + WithKey(s[1..], key, k)) + e;
        WithKey(s, key, k) + e;
      }
    }
  }

  lemma {:induction false} InsertWithKeyFront<T>(x: T, s: seq<T>, key: T -> string, desc: bool, k: string)
    requires SortedBy(s, key, desc) && s != [] && Before(key(x), key(s[0]), desc)
    ensures WithKey(Insert(x, s, key, desc), key, k) == WithKey(s, key, k) + (if key(x) == k then [x] else [])
  {
    assert Insert(x, s, key, desc) == [x] + s;
    assert ([x] + s)[1..] == s;
    if key(x) == k {
      // every key in s goes at or after key(s[0]), which goes strictly after key(x)
      forall j | 0 <= j < |s| ensures key(s[j]) != k {
        if j > 0 {
          SortedFirst(s, key, desc, j);
        } else {
          LexLessIrreflexive(key(s[0]));
        }
      }
      WithKeyNone(s, key, k);
    }
  }

  /** The sort yields a sorted permutation of its input. */
  lemma {:induction false} SortSortedPermutation<T>(s: seq<T>, key: T -> string, desc: bool)
    ensures SortedBy(Sort(s, key, desc), key, desc)
    ensures multiset(Sort(s, key, desc)) == multiset(s)
    ensures |Sort(s, key, desc)| == |s|
  {
    if s != [] {
      var p := s[..|s| - 1];
      SortSortedPermutation(p, key, desc);
      InsertSorted(s[|s| - 1], Sort(p, key, desc), key, desc);
      InsertPermutation(s[|s| - 1], Sort(p, key, desc), key, desc);
      assert s == p + [s[|s| - 1]];
    }
  }

  /** The sort is stable: elements with equal keys keep their relative order. */
  lemma {:induction false} SortStable<T>(s: seq<T>, key: T -> string, desc: bool, k: string)
    ensures WithKey(Sort(s, key, desc), key, k) == WithKey(s, key, k)
  {
    if s != [] {
      var p := s[..|s| - 1];
      var x := s[|s| - 1];
      var sp := Sort(p, key, desc);
      var e := if key(x) == k then [x] else [];
      SortSortedPermutation(p, key, desc);
      SortStable(p, key, desc, k);
      InsertWithKey(x, sp, key, desc, k);
      WithKeyAppend(p, [x], key, k);
      WithKeySingle(x, key, k);
      assert s == p + [x];
      calc {
        WithKey(Sort(s, key, desc), key, k);
        WithKey(Insert(x, sp, key, desc), key, k);
        WithKey(sp, key, k) + e;
        WithKey(p, key, k) + WithKey([x], key, k);
        WithKey(p + [x], key, k);
      }
    }
  }

  lemma {:induction false} WithKeySingle<T>(x: T, key: T -> string, k: string)
    ensures WithKey([x], key, k) == if key(x) == k then [x] else []
  {
    assert [x][1..] == [];
  }

  /** No two elements of `s` share a key. */
  predicate DistinctKeys<T>(s: seq<T>, key: T -> string) {
    forall i, j :: 0 <= i < j < |s| ==> key(s[i]) != key(s[j])
  }

  lemma {:induction false} WithKeyDistinct<T>(s: seq<T>, key: T -> string, k: string)
    requires DistinctKeys(s, key)
    ensures |WithKey(s, key, k)| <= 1
  {
    if s != [] {
      WithKeyDistinct(s[1..], key, k);
      if key(s[0]) == k {
        WithKeyNone(s[1..], key, k);
      }
    }
  }

  lemma {:induction false} WithKeyTwo<T>(s: seq<T>, key: T -> string, i: int, j: int)
    requires 0 <= i < j < |s|
    ensures key(s[i]) == key(s[j]) ==> |WithKey(s, key, key(s[i]))| >= 2
  {
    if i > 0 {
      WithKeyTwo(s[1..], key, i - 1, j - 1);
    } else {
      WithKeyMember(s[1..], key, j - 1);
    }
  }

  lemma {:induction false} WithKeyMember<T>(s: seq<T>, key: T -> string, j: int)
    requires 0 <= j < |s|
    ensures |WithKey(s, key, key(s[j]))| >= 1
  {
    if j > 0 {
      WithKeyMember(s[1..], key, j - 1);
    }
  }

  /** Sorting keeps keys distinct: a key shared twice in the output would be shared twice in the input. */
  lemma {:induction false} SortDistinct<T>(s: seq<T>, key: T -> string, desc: bool)
    requires DistinctKeys(s, key)
    ensures DistinctKeys(Sort(s, key, desc), key)
  {
    var t := Sort(s, key, desc);
    forall i, j | 0 <= i < j < |t| ensures key(t[i]) != key(t[j]) {
      SortStable(s, key, desc, key(t[i]));
      WithKeyDistinct(s, key, key(t[i]));
      WithKeyTwo(t, key, i, j);
    }
  }

  /** The sort keeps exactly the elements it was given. */
  lemma {:induction false} SortMembers<T>(s: seq<T>, key: T -> string, desc: bool)
    ensures forall x :: x in Sort(s, key, desc) <==> x in s
  {
    SortSortedPermutation(s, key, desc);
    forall x ensures x in Sort(s, key, desc) <==> x in s {
      assert x in Sort(s, key, desc) <==> x in multiset(Sort(s, key, desc));
      assert x in s <==> x in multiset(s);
    }
  }
}
