/** Character and string primitives of the .NET base library that the services
    use: case-insensitive comparison, literal search, TrimEnd, Replace, removal
    of characters and ordinal ordering. Case folding covers the ASCII letters;
    see README for what that leaves out. */
module Text {
  import opened Common

  /** Folds a character the way OrdinalIgnoreCase and RegexOptions.IgnoreCase
      compare it (ASCII letters only). */
  function FoldCase(c: char): char {
    if 'a' <= c <= 'z' then (c as int - 32) as char else c
  }

  /** String.ToLower on one character (ASCII letters only). */
  function ToLowerChar(c: char): char {
    if 'A' <= c <= 'Z' then (c as int + 32) as char else c
  }

  function ToLower(s: string): string {
    seq(|s|, i requires 0 <= i < |s| => ToLowerChar(s[i]))
  }

  /** `s.StartsWith(prefix, StringComparison.OrdinalIgnoreCase)`, compared one
      character at a time. */
  function StartsWithIgnoreCase(s: string, prefix: string): (r: bool)
    ensures r <==> |prefix| <= |s| && forall i :: 0 <= i < |prefix| ==> FoldCase(s[i]) == FoldCase(prefix[i])
  {
    if prefix == [] then true
    else if s == [] then false
    else
      var rest := StartsWithIgnoreCase(s[1..], prefix[1..]);
      assert rest <==> (|prefix[1..]| <= |s[1..]| &&
        forall i :: 0 <= i < |prefix[1..]| ==> FoldCase(s[1..][i]) == FoldCase(prefix[1..][i]));
      FoldCase(s[0]) == FoldCase(prefix[0]) && rest
  }

  /** The literal `term` occurs in `line` at position `i`, ignoring case. */
  predicate MatchesAt(line: string, term: string, i: nat) {
    i <= |line| && StartsWithIgnoreCase(line[i..], term)
  }

  /** The leftmost case-insensitive occurrence of `term` in `line` at or after
      `from`: what `Regex.Match` reports as `Index` for an escaped literal
      pattern compiled with RegexOptions.IgnoreCase. */
  function IndexOfIgnoreCaseFrom(line: string, term: string, from: nat): (r: Option<nat>)
    requires from <= |line|
    decreases |line| - from
    ensures r.Some? ==> from <= r.value <= |line|
  {
    if MatchesAt(line, term, from) then Some(from)
    else if from == |line| then None
    else IndexOfIgnoreCaseFrom(line, term, from + 1)
  }

  /** The search reports an occurrence, fitting in the line, before which
      there is none; it reports none exactly when there is none. */
  lemma {:induction false} IndexOfIgnoreCaseFromSpec(line: string, term: string, from: nat)
    requires from <= |line|
    ensures var r := IndexOfIgnoreCaseFrom(line, term, from);
      && (r.Some? ==> r.value + |term| <= |line| && MatchesAt(line, term, r.value))
      && (r.Some? ==> forall j :: from <= j < r.value ==> !MatchesAt(line, term, j))
      && (r.None? <==> forall j :: from <= j <= |line| ==> !MatchesAt(line, term, j))
    decreases |line| - from
  {
    if !MatchesAt(line, term, from) && from < |line| {
      IndexOfIgnoreCaseFromSpec(line, term, from + 1);
    }
  }

  /** An occurrence survives copying the characters it covers elsewhere. */
  lemma MatchesAtCopy(line: string, copy: string, term: string, i: nat, j: nat)
    requires MatchesAt(line, term, i) && i + |term| <= |line| && j + |term| <= |copy|
    requires copy[j..j + |term|] == line[i..i + |term|]
    ensures MatchesAt(copy, term, j)
  {
    forall k | 0 <= k < |term| ensures FoldCase(copy[j..][k]) == FoldCase(term[k]) {
      assert copy[j..][k] == copy[j..j + |term|][k];
      assert line[i..][k] == line[i..i + |term|][k];
    }
  }

  function IndexOfIgnoreCase(line: string, term: string): (r: Option<nat>)
    ensures r.Some? ==> r.value <= |line|
  {
    IndexOfIgnoreCaseFrom(line, term, 0)
  }

  predicate ContainsIgnoreCase(line: string, term: string) {
    IndexOfIgnoreCase(line, term).Some?
  }

  /** `s.TrimEnd(c)`: removes every trailing `c`. */
  function TrimEnd(s: string, c: char): (r: string)
    ensures |r| <= |s| && r == s[..|r|]
    ensures r == [] || r[|r| - 1] != c
    ensures forall k :: |r| <= k < |s| ==> s[k] == c
  {
    if s != [] && s[|s| - 1] == c then TrimEnd(s[..|s| - 1], c) else s
  }

  /** `s.Replace(from, to)` on characters. */
  function Replace(s: string, from: char, to: char): (r: string)
    ensures |r| == |s|
    ensures from != to ==> from !in r
  {
    seq(|s|, i requires 0 <= i < |s| => if s[i] == from then to else s[i])
  }

  /** Replacing `from` by `to` moves every occurrence of `from` over to `to`
      and leaves the counts of all other characters alone. */
  lemma {:induction false} ReplaceCounts(s: string, from: char, to: char)
    ensures from != to ==> multiset(Replace(s, from, to))[from] == 0
    ensures from != to ==> multiset(Replace(s, from, to))[to] == multiset(s)[from] + multiset(s)[to]
    ensures forall c :: c != from && c != to ==> multiset(Replace(s, from, to))[c] == multiset(s)[c]
  {
    if s != [] {
      ReplaceCounts(s[1..], from, to);
      assert s == [s[0]] + s[1..];
      assert Replace(s, from, to) == [if s[0] == from then to else s[0]] + Replace(s[1..], from, to);
    }
  }

  /** `string.Join("", s.Split(bad))`: every character of `bad` dropped, the
      others kept in order. */
  function RemoveChars(s: string, bad: set<char>): (r: string)
    ensures |r| <= |s|
    ensures forall i :: 0 <= i < |r| ==> r[i] !in bad
    ensures forall c :: c !in bad ==> multiset(r)[c] == multiset(s)[c]
  {
    if s == [] then []
    else
      assert s == [s[0]] + s[1..];
      (if s[0] in bad then [] else [s[0]]) + RemoveChars(s[1..], bad)
  }

  /** Removing characters that do not occur changes nothing. */
  lemma {:induction false} RemoveCharsAbsent(s: string, bad: set<char>)
    requires forall i :: 0 <= i < |s| ==> s[i] !in bad
    ensures RemoveChars(s, bad) == s
  {
    if s != [] {
      RemoveCharsAbsent(s[1..], bad);
    }
  }

  /** The first index of `c` in `s`, if any. */
  function IndexOfChar(s: string, c: char): (r: Option<nat>)
    ensures r.Some? ==> r.value < |s| && s[r.value] == c && c !in s[..r.value]
    ensures r.None? <==> c !in s
  {
    if s == [] then None
    else if s[0] == c then Some(0)
    else
      match IndexOfChar(s[1..], c)
      case None => None
      case Some(j) =>
        assert s[..j + 1] == [s[0]] + s[1..][..j];
        Some(j + 1)
  }

  /** Ordinal (code point by code point) ordering of strings. */
  predicate StrLe(a: string, b: string) {
    a == [] || (b != [] && (a[0] < b[0] || (a[0] == b[0] && StrLe(a[1..], b[1..]))))
  }

  lemma {:induction false} StrLeTotal(a: string, b: string)
    ensures StrLe(a, b) || StrLe(b, a)
  {
    if a != [] && b != [] && a[0] == b[0] { StrLeTotal(a[1..], b[1..]); }
  }

  lemma {:induction false} StrLeTransitive(a: string, b: string, c: string)
    requires StrLe(a, b) && StrLe(b, c)
    ensures StrLe(a, c)
  {
    if a != [] && b != [] && c != [] && a[0] == b[0] == c[0] {
      StrLeTransitive(a[1..], b[1..], c[1..]);
    }
  }
}
