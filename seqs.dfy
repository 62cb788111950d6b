/** Sequence helpers standing in for the LINQ operators the services use:
    `Where` (Filter), `Select` (Map) and `OrderBy` (SortBy, a stable insertion
    sort on a string key under ordinal order). */
module Seqs {
  import opened Text

  function Filter<T>(s: seq<T>, keep: T -> bool): (r: seq<T>)
    ensures |r| <= |s|
  {
    if s == [] then []
    else Filter(s[..|s| - 1], keep) + (if keep(s[|s| - 1]) then [s[|s| - 1]] else [])
  }

  /** `Filter` keeps exactly the elements `keep` accepts. */
  lemma {:induction false} FilterMembers<T>(s: seq<T>, keep: T -> bool)
    ensures forall x :: x in Filter(s, keep) <==> x in s && keep(x)
  {
    if s != [] {
      assert s == s[..|s| - 1] + [s[|s| - 1]];
      FilterMembers(s[..|s| - 1], keep);
    }
  }

  function Map<T, U>(s: seq<T>, f: T -> U): seq<U> {
    seq(|s|, i requires 0 <= i < |s| => f(s[i]))
  }

  /** `s` is in ascending ordinal order of `key`. */
  predicate SortedBy<T>(s: seq<T>, key: T -> string) {
    forall i, j :: 0 <= i < j < |s| ==> StrLe(key(s[i]), key(s[j]))
  }

  /** Inserts `x` before the first element whose key is not smaller, which
      keeps equal keys in their original order. */
  function Insert<T>(x: T, s: seq<T>, key: T -> string): (r: seq<T>)
    requires SortedBy(s, key)
    ensures SortedBy(r, key)
    ensures multiset(r) == multiset(s) + multiset{x}
  {
    if s == [] then [x]
    else if StrLe(key(x), key(s[0])) then
      forall j | 0 < j < |s| ensures StrLe(key(x), key(s[j])) {
        StrLeTransitive(key(x), key(s[0]), key(s[j]));
      }
      [x] + s
    else
      var rest := Insert(x, s[1..], key);
      StrLeTotal(key(x), key(s[0]));
      assert s == [s[0]] + s[1..];
      forall k | 0 <= k < |rest| ensures StrLe(key(s[0]), key(rest[k])) {
        assert rest[k] in multiset(rest);
        if rest[k] != x {
          assert rest[k] in multiset(s[1..]);
          var m :| 0 <= m < |s[1..]| && s[1..][m] == rest[k];
        }
      }
      [s[0]] + rest
  }

  /** `OrderBy(key)`: a sorted permutation of `s`. */
  function SortBy<T>(s: seq<T>, key: T -> string): (r: seq<T>)
    ensures SortedBy(r, key)
    ensures multiset(r) == multiset(s)
  {
    if s == [] then []
    else
      assert s == [s[0]] + s[1..];
      Insert(s[0], SortBy(s[1..], key), key)
  }

  /** Sorting keeps the elements. */
  lemma SortByMembers<T>(s: seq<T>, key: T -> string)
    ensures forall x :: x in SortBy(s, key) <==> x in s
  {
    var r := SortBy(s, key);
    forall x ensures x in r <==> x in s {
      assert x in r <==> x in multiset(r);
      assert x in s <==> x in multiset(s);
    }
  }

  lemma MapSorted<T, U>(s: seq<T>, f: T -> U, kt: T -> string, ku: U -> string)
    requires forall y :: ku(f(y)) == kt(y)
    requires SortedBy(s, kt)
    ensures SortedBy(Map(s, f), ku)
  {
  }

  lemma MapCons<T, U>(x: T, s: seq<T>, f: T -> U)
    ensures Map([x] + s, f) == [f(x)] + Map(s, f)
  {
  }

  lemma {:induction false} InsertMap<T, U>(x: T, s: seq<T>, f: T -> U, kt: T -> string, ku: U -> string)
    requires forall y :: ku(f(y)) == kt(y)
    requires SortedBy(s, kt)
    ensures SortedBy(Map(s, f), ku)
    ensures Insert(f(x), Map(s, f), ku) == Map(Insert(x, s, kt), f)
  {
    MapSorted(s, f, kt, ku);
    if s == [] {
      assert Insert(x, s, kt) == [x];
      assert Map([x], f) == [f(x)];
    } else {
      assert s == [s[0]] + s[1..];
      MapCons(s[0], s[1..], f);
      if StrLe(kt(x), kt(s[0])) {
        MapCons(x, s, f);
      } else {
        InsertMap(x, s[1..], f, kt, ku);
        MapCons(s[0], Insert(x, s[1..], kt), f);
      }
    }
  }

  /** Sorting commutes with a projection that keeps the sort key. */
  lemma {:induction false} SortByMap<T, U>(s: seq<T>, f: T -> U, kt: T -> string, ku: U -> string)
    requires forall y :: ku(f(y)) == kt(y)
    ensures SortBy(Map(s, f), ku) == Map(SortBy(s, kt), f)
  {
    if s != [] {
      assert Map(s, f)[1..] == Map(s[1..], f);
      SortByMap(s[1..], f, kt, ku);
      InsertMap(s[0], SortBy(s[1..], kt), f, kt, ku);
    }
  }
}
