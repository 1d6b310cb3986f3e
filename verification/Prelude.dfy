/**
 * Wrappers shared by the other modules, and a model of the library's `sort_by_key` on lists
 * whose keys are distinct (every list the engine sorts is of that kind).
 */
module Prelude {
  datatype Option<+T> = None | Some(value: T)

  /** `Panic` stands for a call that does not return: `panic!`, `unwrap` on nothing, `unreachable!`. */
  datatype Outcome<+T> = Done(value: T) | Panic

  ghost predicate StrictlySortedBy<T>(s: seq<T>, key: T -> int) {
    forall i, j | 0 <= i < j < |s| :: key(s[i]) < key(s[j])
  }

  ghost predicate DistinctKeys<T>(s: seq<T>, key: T -> int) {
    forall i, j | 0 <= i < j < |s| :: key(s[i]) != key(s[j])
  }

  ghost predicate NoDuplicates<T>(s: seq<T>) {
    forall i, j | 0 <= i < j < |s| :: s[i] != s[j]
  }

  /** A list has no duplicates exactly when it has as many elements as its set. */
  lemma {:induction false} DistinctIffCount<T>(s: seq<T>)
    ensures |set x | x in s| <= |s|
    ensures NoDuplicates(s) <==> |set x | x in s| == |s|
  {
    if s != [] {
      var front, last := s[..|s| - 1], s[|s| - 1];
      DistinctIffCount(front);
      assert s == front + [last];
      assert (set x | x in s) == (set x | x in front) + {last};
      assert NoDuplicates(s) <==> NoDuplicates(front) && last !in front;
    }
  }

  lemma Regrouped<T>(a: seq<T>, b: seq<T>, c: seq<T>)
    ensures a + b + c == a + (b + c)
  {
  }

  /** Subsets are no larger, and as large only if equal. */
  lemma SubsetOfSameSize<T>(a: set<T>, b: set<T>)
    requires a <= b
    ensures |a| <= |b|
    ensures |a| == |b| <==> a == b
  {
    assert b == a + (b - a);
    assert |b| == |a| + |b - a|;
  }

  /** A strictly sorted list is its head and a strictly sorted list of larger elements. */
  lemma SortedUncons<T(!new)>(s: seq<T>, key: T -> int)
    requires StrictlySortedBy(s, key) && s != []
    ensures StrictlySortedBy(s[1..], key) && forall y | y in s[1..] :: key(s[0]) < key(y)
  {
  }

  lemma SortedCons<T(!new)>(x: T, s: seq<T>, key: T -> int)
    requires StrictlySortedBy(s, key) && forall y | y in s :: key(x) < key(y)
    ensures StrictlySortedBy([x] + s, key)
  {
    assert forall j | 0 <= j < |s| :: s[j] in s;
  }

  lemma MembersUncons<T(!new)>(s: seq<T>)
    requires s != []
    ensures forall y :: y in s <==> y == s[0] || y in s[1..]
  {
    assert s == [s[0]] + s[1..];
  }

  function InsertBy<T(!new)>(x: T, s: seq<T>, key: T -> int): (r: seq<T>)
    requires StrictlySortedBy(s, key)
    requires forall y | y in s :: key(y) != key(x)
    ensures StrictlySortedBy(r, key) && |r| == |s| + 1
    ensures forall y :: y in r <==> y == x || y in s
  {
    if s == [] then
      [x]
    else
      SortedUncons(s, key);
      MembersUncons(s);
      if key(x) < key(s[0]) then
        SortedCons(x, s, key);
        [x] + s
      else
        var tail := InsertBy(x, s[1..], key);
        SortedCons(s[0], tail, key);
        [s[0]] + tail
  }

  /** `slice::sort_by_key` on a list with distinct keys. */
  function SortBy<T(!new)>(s: seq<T>, key: T -> int): (r: seq<T>)
    requires DistinctKeys(s, key)
    ensures StrictlySortedBy(r, key) && |r| == |s|
    ensures forall y :: y in r <==> y in s
  {
    if s == [] then [] else
      var tail := SortBy(s[1..], key);
      assert forall y | y in s[1..] :: key(y) != key(s[0]);
      MembersUncons(s);
      InsertBy(s[0], tail, key)
  }

  /** A strictly sorted list is determined by its members. */
  lemma {:induction false} StrictlySortedUnique<T(!new)>(a: seq<T>, b: seq<T>, key: T -> int)
    requires StrictlySortedBy(a, key) && StrictlySortedBy(b, key)
    requires forall x :: x in a <==> x in b
    ensures a == b
  {
    assert |b| > 0 ==> b[0] in b;
    if a != [] {
      assert a[0] in b;
      assert b[0] in a;
      assert a[0] == b[0];
      forall x ensures x in a[1..] <==> x in b[1..] {
        if x in a[1..] { assert x in a && x != a[0]; assert x in b; }
        if x in b[1..] { assert x in b && x != b[0]; assert x in a; }
      }
      StrictlySortedUnique(a[1..], b[1..], key);
    }
  }

  predicate IsMax(m: nat, s: set<nat>) {
    m in s && forall x | x in s :: x <= m
  }

  function MaxOf(s: set<nat>): (m: nat)
    requires s != {}
    ensures m in s && forall x | x in s :: x <= m
  {
    MaxExists(s);
    var m :| m in s && IsMax(m, s);
    m
  }

  lemma {:induction false} MaxExists(s: set<nat>)
    requires s != {}
    ensures exists m :: IsMax(m, s)
  {
    var x :| x in s;
    if s == {x} {
      assert IsMax(x, s);
    } else {
      var rest := s - {x};
      MaxExists(rest);
      var y :| IsMax(y, rest);
      assert forall z | z in s :: z == x || z in rest;
      assert IsMax(if x > y then x else y, s);
    }
  }

  predicate IsMin(m: nat, s: set<nat>) {
    m in s && forall x | x in s :: m <= x
  }

  function MinOf(s: set<nat>): (m: nat)
    requires s != {}
    ensures m in s && forall x | x in s :: m <= x
  {
    MinExists(s);
    var m :| m in s && IsMin(m, s);
    m
  }

  lemma {:induction false} MinExists(s: set<nat>)
    requires s != {}
    ensures exists m :: IsMin(m, s)
  {
    var x :| x in s;
    if s == {x} {
      assert IsMin(x, s);
    } else {
      var rest := s - {x};
      MinExists(rest);
      var y :| IsMin(y, rest);
      assert forall z | z in s :: z == x || z in rest;
      assert IsMin(if x < y then x else y, s);
    }
  }
}
