/** list.sort(key=..., reverse=True) on an integer key (a time stamp, a
    size), as an insertion sort on sequences: the result is ordered newest
    (largest) first and is a permutation of the input. */
module Sorting {
  import opened Strings

  ghost predicate SortedDescBy<T>(s: seq<T>, key: T -> int) {
    forall i, j :: 0 <= i < j < |s| ==> key(s[i]) >= key(s[j])
  }

  function InsertDescBy<T>(x: T, s: seq<T>, key: T -> int): (r: seq<T>)
    requires SortedDescBy(s, key)
    ensures SortedDescBy(r, key)
    ensures multiset(r) == multiset(s) + multiset{x}
    ensures |r| == |s| + 1
  {
    if s == [] then [x]
    else if key(x) >= key(s[0]) then [x] + s
    else
      var rest := InsertDescBy(x, s[1..], key);
      HeadStaysFirst(x, s, rest, key);
      [s[0]] + rest
  }

  /** What is inserted behind the head sorts no higher than the head. */
  lemma HeadStaysFirst<T>(x: T, s: seq<T>, rest: seq<T>, key: T -> int)
    requires s != [] && SortedDescBy(s, key) && key(x) < key(s[0])
    requires SortedDescBy(rest, key) && multiset(rest) == multiset(s[1..]) + multiset{x}
    ensures SortedDescBy([s[0]] + rest, key)
    ensures multiset([s[0]] + rest) == multiset(s) + multiset{x}
  {
    assert s == [s[0]] + s[1..];
    forall j | 0 <= j < |rest| ensures key(rest[j]) <= key(s[0]) {
      assert rest[j] in multiset(rest);
      assert rest[j] == x || rest[j] in multiset(s[1..]);
    }
  }

  function SortDescBy<T>(s: seq<T>, key: T -> int): (r: seq<T>)
    ensures SortedDescBy(r, key)
    ensures multiset(r) == multiset(s)
    ensures |r| == |s|
  {
    if s == [] then []
    else
      assert s == [s[0]] + s[1..];
      InsertDescBy(s[0], SortDescBy(s[1..], key), key)
  }

  /** list.sort(key=...) on a text key: ascending in Python's string order. */
  ghost predicate SortedAscByText<T>(s: seq<T>, key: T -> string) {
    forall i, j :: 0 <= i < j < |s| ==> LexLe(key(s[i]), key(s[j]))
  }

  function InsertAscByText<T>(x: T, s: seq<T>, key: T -> string): (r: seq<T>)
    requires SortedAscByText(s, key)
    ensures SortedAscByText(r, key)
    ensures multiset(r) == multiset(s) + multiset{x}
    ensures |r| == |s| + 1
  {
    if s == [] then [x]
    else if LexLe(key(x), key(s[0])) then
      InsertFront(x, s, key);
      [x] + s
    else
      LexLeTotal(key(x), key(s[0]));
      var rest := InsertAscByText(x, s[1..], key);
      HeadStaysLeast(x, s, rest, key);
      [s[0]] + rest
  }

  /** An element no greater than the head goes in front. */
  lemma InsertFront<T>(x: T, s: seq<T>, key: T -> string)
    requires s != [] && SortedAscByText(s, key) && LexLe(key(x), key(s[0]))
    ensures SortedAscByText([x] + s, key)
  {
    forall j | 0 <= j < |s| ensures LexLe(key(x), key(s[j])) {
      if j > 0 { LexLeTrans(key(x), key(s[0]), key(s[j])); }
    }
  }

  /** What is inserted behind the head sorts no lower than the head. */
  lemma HeadStaysLeast<T>(x: T, s: seq<T>, rest: seq<T>, key: T -> string)
    requires s != [] && SortedAscByText(s, key) && LexLe(key(s[0]), key(x))
    requires SortedAscByText(rest, key) && multiset(rest) == multiset(s[1..]) + multiset{x}
    ensures SortedAscByText([s[0]] + rest, key)
    ensures multiset([s[0]] + rest) == multiset(s) + multiset{x}
  {
    assert s == [s[0]] + s[1..];
    forall j | 0 <= j < |rest| ensures LexLe(key(s[0]), key(rest[j])) {
      assert rest[j] in multiset(rest);
      if rest[j] != x {
        assert rest[j] in multiset(s[1..]);
        var k :| 0 <= k < |s[1..]| && s[1..][k] == rest[j];
        assert s[k + 1] == rest[j];
      }
    }
  }

  function SortAscByText<T>(s: seq<T>, key: T -> string): (r: seq<T>)
    ensures SortedAscByText(r, key)
    ensures multiset(r) == multiset(s)
    ensures |r| == |s|
  {
    if s == [] then []
    else
      assert s == [s[0]] + s[1..];
      InsertAscByText(s[0], SortAscByText(s[1..], key), key)
  }

  /** sorted(names) for a set of strings: every name once, in ascending order. */
  function SortedSet(names: set<string>): (r: seq<string>)
    ensures forall x :: x in r <==> x in names
    ensures |r| == |names|
    ensures forall i, j :: 0 <= i < j < |r| ==> LexLe(r[i], r[j]) && r[i] != r[j]
    decreases |names|
  {
    if names == {} then []
    else
      HasLeast(names);
      LeastUnique(names);
      var m :| IsLeast(m, names);
      var rest := SortedSet(names - {m});
      LeastFirst(m, names, rest);
      [m] + rest
  }

  predicate IsLeast(m: string, names: set<string>) {
    m in names && forall y :: y in names ==> LexLe(m, y)
  }

  /** The least name followed by the sorted others is sorted. */
  lemma LeastFirst(m: string, names: set<string>, rest: seq<string>)
    requires IsLeast(m, names)
    requires forall x :: x in rest <==> x in names - {m}
    requires forall i, j :: 0 <= i < j < |rest| ==> LexLe(rest[i], rest[j]) && rest[i] != rest[j]
    ensures forall i, j :: 0 <= i < j < |[m] + rest| ==> LexLe(([m] + rest)[i], ([m] + rest)[j]) && ([m] + rest)[i] != ([m] + rest)[j]
  {
    forall j | 0 <= j < |rest| ensures LexLe(m, rest[j]) && m != rest[j] {
      assert rest[j] in rest;
    }
  }

  lemma LeastUnique(names: set<string>)
    ensures forall a, b :: IsLeast(a, names) && IsLeast(b, names) ==> a == b
  {
    forall a, b | IsLeast(a, names) && IsLeast(b, names) ensures a == b {
      LexLeAntisym(a, b);
    }
  }

  /** A finite non-empty set of strings has a least element. */
  lemma {:induction false} HasLeast(names: set<string>)
    requires names != {}
    ensures exists m :: IsLeast(m, names)
    decreases |names|
  {
    var x :| x in names;
    if names == {x} {
      LexLeRefl(x);
      assert IsLeast(x, names);
    } else {
      HasLeast(names - {x});
      var m :| IsLeast(m, names - {x});
      LexLeTotal(m, x);
      if LexLe(m, x) {
        assert IsLeast(m, names);
      } else {
        forall y | y in names ensures LexLe(x, y) {
          if y == x { LexLeRefl(x); } else { LexLeTrans(x, m, y); }
        }
        assert IsLeast(x, names);
      }
    }
  }
}
