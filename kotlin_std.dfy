/**
 * The pieces of the Kotlin standard library that the plugin code relies on,
 * stated over Dafny strings (sequences of Unicode scalar values).
 *
 * Kotlin compares strings by UTF-16 code units. On scalar values that order is
 * lexicographic under `CodeUnitKey`: characters below U+D800 keep their value,
 * supplementary characters (two code units, the first a high surrogate) sort
 * between U+D7FF and U+E000, and BMP characters from U+E000 upward sort last.
 */
module KotlinStd {

  // ---------------------------------------------------------------------------
  // Option, as Kotlin's nullable types; Result, for thrown exceptions
  // ---------------------------------------------------------------------------

  datatype Option<T> = None | Some(value: T)

  /** A value, or the message of the exception thrown instead. */
  datatype Result<T> = Ok(value: T) | Failure(message: string)

  // ---------------------------------------------------------------------------
  // Characters
  // ---------------------------------------------------------------------------

  /** `Char.isWhitespace()` on the JVM: `Character.isWhitespace || Character.isSpaceChar`. */
  predicate IsWhitespace(c: char) {
    var n := c as int;
    (9 <= n <= 13) || (0x1C <= n <= 0x20) || n == 0xA0 || n == 0x1680
    || (0x2000 <= n <= 0x200A) || n == 0x2028 || n == 0x2029 || n == 0x202F
    || n == 0x205F || n == 0x3000
  }

  /** `Char.lowercaseChar()` restricted to ASCII letters. */
  function LowerChar(c: char): (r: char)
    ensures 'A' <= c <= 'Z' ==> 'a' <= r <= 'z'
    ensures !('A' <= c <= 'Z') ==> r == c
  {
    if 'A' <= c <= 'Z' then (c as int + 32) as char else c
  }

  /** `String.lowercase(Locale.ROOT)` restricted to ASCII letters. */
  function LowerAscii(s: string): (r: string)
    ensures |r| == |s|
    ensures forall i | 0 <= i < |s| :: r[i] == LowerChar(s[i])
  {
    seq(|s|, i requires 0 <= i < |s| => LowerChar(s[i]))
  }

  // ---------------------------------------------------------------------------
  // Searching
  // ---------------------------------------------------------------------------

  predicate StartsWith(s: string, p: string) {
    |p| <= |s| && s[..|p|] == p
  }

  /** A string starts with any of its left parts. */
  lemma PrefixOfConcat(p: string, rest: string)
    ensures StartsWith(p + rest, p)
  {
    assert (p + rest)[..|p|] == p;
  }

  predicate EndsWith(s: string, p: string) {
    |p| <= |s| && s[|s| - |p|..] == p
  }

  /** `p` occurs in `s` at index `i`. */
  predicate OccursAt(s: string, p: string, i: int) {
    0 <= i && i + |p| <= |s| && s[i..i + |p|] == p
  }

  predicate Contains(s: string, p: string) {
    exists i | 0 <= i <= |s| - |p| :: OccursAt(s, p, i)
  }

  /** `String.indexOf(c)`: the first index holding `c`, or -1. */
  function IndexOfChar(s: string, c: char): (r: int)
    ensures -1 <= r < |s|
    ensures r == -1 <==> c !in s
    ensures r >= 0 ==> s[r] == c && c !in s[..r]
  {
    if |s| == 0 then -1
    else if s[0] == c then 0
    else
      var k := IndexOfChar(s[1..], c);
      assert s[1..] == s[..|s|][1..];
      if k < 0 then -1 else
        assert s[..k + 1] == [s[0]] + s[1..][..k];
        k + 1
  }

  /** `String.substringBefore(c)`: everything before the first `c`, or all of `s`. */
  function SubstringBefore(s: string, c: char): (r: string)
    ensures c !in r
    ensures r == (if c in s then s[..IndexOfChar(s, c)] else s)
  {
    var k := IndexOfChar(s, c);
    if k < 0 then s else s[..k]
  }

  /** `String.substringAfter(c)`: everything after the first `c`, or all of `s`. */
  function SubstringAfter(s: string, c: char): (r: string)
    ensures r == (if c in s then s[IndexOfChar(s, c) + 1..] else s)
  {
    var k := IndexOfChar(s, c);
    if k < 0 then s else s[k + 1..]
  }

  // ---------------------------------------------------------------------------
  // Trimming
  // ---------------------------------------------------------------------------

  /** `String.trimStart()`: drops the leading whitespace. */
  function TrimStart(s: string): (r: string)
    ensures |r| <= |s| && r == s[|s| - |r|..]
    ensures forall i | 0 <= i < |s| - |r| :: IsWhitespace(s[i])
    ensures r != [] ==> !IsWhitespace(r[0])
  {
    if |s| > 0 && IsWhitespace(s[0]) then TrimStart(s[1..]) else s
  }

  /** `String.trimEnd()`: drops the trailing whitespace. */
  function TrimEnd(s: string): (r: string)
    ensures |r| <= |s| && r == s[..|r|]
    ensures forall i | |r| <= i < |s| :: IsWhitespace(s[i])
    ensures r != [] ==> !IsWhitespace(r[|r| - 1])
  {
    if |s| > 0 && IsWhitespace(s[|s| - 1]) then TrimEnd(s[..|s| - 1]) else s
  }

  /** `String.trim()`. */
  function Trim(s: string): string {
    TrimEnd(TrimStart(s))
  }

  /** `String.isBlank()`: empty or whitespace only. */
  predicate IsBlank(s: string) {
    forall i | 0 <= i < |s| :: IsWhitespace(s[i])
  }

  lemma TrimEndEmpty(s: string)
    ensures TrimEnd(s) == [] ==> IsBlank(s)
  {
  }

  /** A string is blank exactly when trimming removes all of it. */
  lemma TrimEmptyIffBlank(s: string)
    ensures Trim(s) == [] <==> IsBlank(s)
  {
    var t := TrimStart(s);
    if Trim(s) == [] {
      TrimEndEmpty(t);
    } else {
      assert t != [] && s[|s| - |t|] == t[0];
    }
  }

  // ---------------------------------------------------------------------------
  // The order of `String.compareTo`
  // ---------------------------------------------------------------------------

  /** The position of a character in UTF-16 code-unit order. */
  function CodeUnitKey(c: char): (k: int)
    ensures c as int < 0xD800 ==> k == c as int
    ensures 0x10000 <= c as int ==> 0xD800 <= k < 0x110000 + 0xE000
  {
    if c as int < 0xD800 then c as int
    else if c as int < 0x10000 then c as int + 0x110000
    else c as int
  }

  lemma CodeUnitKeyInjective(a: char, b: char)
    requires CodeUnitKey(a) == CodeUnitKey(b)
    ensures a == b
  {
  }

  /** `a.compareTo(b) < 0`. */
  predicate Less(a: string, b: string)
    decreases |a|
  {
    if |a| == 0 then |b| > 0
    else if |b| == 0 then false
    else if a[0] == b[0] then Less(a[1..], b[1..])
    else CodeUnitKey(a[0]) < CodeUnitKey(b[0])
  }

  lemma {:induction false} LessIrreflexive(a: string)
    ensures !Less(a, a)
    decreases |a|
  {
    if |a| > 0 { LessIrreflexive(a[1..]); }
  }

  lemma {:induction false} LessTransitive(a: string, b: string, c: string)
    requires Less(a, b) && Less(b, c)
    ensures Less(a, c)
    decreases |a|
  {
    if |a| > 0 && |b| > 0 && |c| > 0 && a[0] == b[0] && b[0] == c[0] {
      LessTransitive(a[1..], b[1..], c[1..]);
    }
  }

  lemma {:induction false} LessTotal(a: string, b: string)
    requires a != b
    ensures Less(a, b) || Less(b, a)
    decreases |a|
  {
    if |a| > 0 && |b| > 0 {
      if a[0] == b[0] {
        assert a == [a[0]] + a[1..] && b == [b[0]] + b[1..];
        LessTotal(a[1..], b[1..]);
      } else if CodeUnitKey(a[0]) == CodeUnitKey(b[0]) {
        CodeUnitKeyInjective(a[0], b[0]);
      }
    }
  }

  lemma LessAsymmetric(a: string, b: string)
    requires Less(a, b)
    ensures !Less(b, a)
  {
    if Less(b, a) {
      LessTransitive(a, b, a);
      LessIrreflexive(a);
    }
  }

  // ---------------------------------------------------------------------------
  // Sorting: `sorted()` and `sortedWith(compareByDescending { rank }.thenBy { it })`
  // ---------------------------------------------------------------------------

  /** A rank looked up in a map, 0 when absent (`m[x] ?: 0`). */
  function Rank(m: map<string, int>, x: string): int {
    if x in m then m[x] else 0
  }

  /** `a` comes strictly before `b`: higher rank first, then by name. */
  predicate Before(m: map<string, int>, a: string, b: string) {
    Rank(m, a) > Rank(m, b) || (Rank(m, a) == Rank(m, b) && Less(a, b))
  }

  lemma BeforeTransitive(m: map<string, int>, a: string, b: string, c: string)
    requires Before(m, a, b) && Before(m, b, c)
    ensures Before(m, a, c)
  {
    if Rank(m, a) == Rank(m, b) == Rank(m, c) { LessTransitive(a, b, c); }
  }

  lemma BeforeTotal(m: map<string, int>, a: string, b: string)
    requires a != b
    ensures Before(m, a, b) || Before(m, b, a)
  {
    LessTotal(a, b);
  }

  lemma BeforeIrreflexive(m: map<string, int>, a: string)
    ensures !Before(m, a, a)
  {
    LessIrreflexive(a);
  }

  /** No later element comes before an earlier one. */
  predicate SortedBy(m: map<string, int>, s: seq<string>) {
    forall i, j | 0 <= i < j < |s| :: !Before(m, s[j], s[i])
  }

  /** Ascending in plain `compareTo` order. */
  predicate Ascending(s: seq<string>) {
    SortedBy(map[], s)
  }

  predicate NoDuplicates<T(==)>(s: seq<T>) {
    forall i, j | 0 <= i < j < |s| :: s[i] != s[j]
  }

  lemma SortedCons(m: map<string, int>, h: string, t: seq<string>)
    requires SortedBy(m, t)
    requires forall k | 0 <= k < |t| :: !Before(m, t[k], h)
    ensures SortedBy(m, [h] + t)
  {
    var r := [h] + t;
    forall i, j | 0 <= i < j < |r| ensures !Before(m, r[j], r[i]) {
      if i > 0 { assert r[i] == t[i - 1] && r[j] == t[j - 1]; } else { assert r[j] == t[j - 1]; }
    }
  }

  /** If the head of a sorted list does not come before `x`, no element does. */
  lemma HeadNotAfter(m: map<string, int>, x: string, s: seq<string>)
    requires SortedBy(m, s) && s != [] && !Before(m, s[0], x)
    ensures forall j | 0 <= j < |s| :: !Before(m, s[j], x)
  {
    forall j | 0 <= j < |s| ensures !Before(m, s[j], x) {
      if Before(m, s[j], x) && s[j] != s[0] {
        BeforeTotal(m, s[0], s[j]);
        BeforeTransitive(m, s[0], s[j], x);
      }
    }
  }

  lemma InsertedNotBefore(m: map<string, int>, h: string, x: string, rest: seq<string>, t: seq<string>)
    requires Before(m, h, x)
    requires forall j | 0 <= j < |rest| :: !Before(m, rest[j], h)
    requires multiset(t) == multiset(rest) + multiset{x}
    ensures forall k | 0 <= k < |t| :: !Before(m, t[k], h)
  {
    forall k | 0 <= k < |t| ensures !Before(m, t[k], h) {
      assert t[k] in multiset(t);
      if t[k] == x {
        if Before(m, x, h) { BeforeTransitive(m, h, x, h); BeforeIrreflexive(m, h); }
      } else {
        assert t[k] in multiset(rest);
        var j :| 0 <= j < |rest| && rest[j] == t[k];
      }
    }
  }

  function Insert(m: map<string, int>, x: string, s: seq<string>): (r: seq<string>)
    requires SortedBy(m, s)
    ensures SortedBy(m, r)
    ensures multiset(r) == multiset(s) + multiset{x}
  {
    if s == [] then [x]
    else if !Before(m, s[0], x) then
      HeadNotAfter(m, x, s);
      SortedCons(m, x, s);
      [x] + s
    else
      var t := Insert(m, x, s[1..]);
      assert s == [s[0]] + s[1..];
      InsertedNotBefore(m, s[0], x, s[1..], t);
      SortedCons(m, s[0], t);
      [s[0]] + t
  }

  /** `sortedWith(compareByDescending { m[it] ?: 0 }.thenBy { it })`. */
  function SortedWith(m: map<string, int>, s: seq<string>): (r: seq<string>)
    ensures SortedBy(m, r)
    ensures multiset(r) == multiset(s)
  {
    if s == [] then [] else
      assert s == [s[0]] + s[1..];
      Insert(m, s[0], SortedWith(m, s[1..]))
  }

  /** `sorted()`. */
  function Sorted(s: seq<string>): (r: seq<string>)
    ensures Ascending(r)
    ensures multiset(r) == multiset(s)
  {
    SortedWith(map[], s)
  }

  /** With no two equal elements, sortedness is strict ordering of neighbours and beyond. */
  lemma SortedDistinctStrict(m: map<string, int>, s: seq<string>, i: int, j: int)
    requires SortedBy(m, s) && NoDuplicates(s)
    requires 0 <= i < j < |s|
    ensures Before(m, s[i], s[j])
  {
    BeforeTotal(m, s[i], s[j]);
  }

  /** Two sorted arrangements of one multiset start with the same element. */
  lemma SortedHeads(m: map<string, int>, a: seq<string>, b: seq<string>)
    requires SortedBy(m, a) && SortedBy(m, b)
    requires multiset(a) == multiset(b) && a != [] && b != []
    ensures a[0] == b[0]
  {
    if a[0] != b[0] {
      assert b[0] in multiset(a);
      var i :| 0 <= i < |a| && a[i] == b[0];
      assert a[0] in multiset(b);
      var j :| 0 <= j < |b| && b[j] == a[0];
      BeforeTotal(m, a[0], b[0]);
    }
  }

  /** Removing equal heads keeps the multisets equal. */
  lemma TailsAgree(a: seq<string>, b: seq<string>)
    requires multiset(a) == multiset(b) && a != [] && b != [] && a[0] == b[0]
    ensures multiset(a[1..]) == multiset(b[1..])
  {
    assert a == [a[0]] + a[1..] && b == [b[0]] + b[1..];
    assert multiset(a[1..]) == multiset(a) - multiset{a[0]};
    assert multiset(b[1..]) == multiset(b) - multiset{b[0]};
  }

  /**
   * There is only one sorted arrangement of a multiset: a sorted list is
   * determined by its elements.
   */
  lemma {:induction false} SortedUnique(m: map<string, int>, a: seq<string>, b: seq<string>)
    requires SortedBy(m, a) && SortedBy(m, b)
    requires multiset(a) == multiset(b)
    ensures a == b
    decreases |a|
  {
    if a != [] {
      assert |b| == |a| by { assert |multiset(a)| == |multiset(b)|; }
      SortedHeads(m, a, b);
      TailsAgree(a, b);
      assert SortedBy(m, a[1..]) && SortedBy(m, b[1..]);
      SortedUnique(m, a[1..], b[1..]);
      assert a == [a[0]] + a[1..] && b == [b[0]] + b[1..];
    }
  }

  // ---------------------------------------------------------------------------
  // Lists
  // ---------------------------------------------------------------------------

  /** `distinct()`: the first occurrence of each element, in order. */
  function Distinct(s: seq<string>): (r: seq<string>)
    ensures NoDuplicates(r)
    ensures forall x :: x in r <==> x in s
  {
    if s == [] then [] else
      var t := Distinct(s[..|s| - 1]);
      assert s == s[..|s| - 1] + [s[|s| - 1]];
      assert forall x :: x in s <==> x in s[..|s| - 1] || x == s[|s| - 1];
      if s[|s| - 1] in t then t else t + [s[|s| - 1]]
  }

  /** `toSet()`. */
  function ToSet<T>(s: seq<T>): set<T> {
    set x | x in s
  }

  /** `joinToString(sep)`. */
  function Join(xs: seq<string>, sep: string): string {
    if |xs| == 0 then ""
    else if |xs| == 1 then xs[0]
    else xs[0] + sep + Join(xs[1..], sep)
  }

  /** `flatten()` of a list of lists. */
  function Flatten<T>(xss: seq<seq<T>>): seq<T> {
    if xss == [] then [] else xss[0] + Flatten(xss[1..])
  }

  lemma {:induction false} FlattenAppend<T>(a: seq<seq<T>>, b: seq<seq<T>>)
    ensures Flatten(a + b) == Flatten(a) + Flatten(b)
  {
    if a == [] {
      assert a + b == b;
    } else {
      assert (a + b)[0] == a[0];
      assert (a + b)[1..] == a[1..] + b;
      FlattenAppend(a[1..], b);
    }
  }

  // ---------------------------------------------------------------------------
  // Listings of a set (`toList()`) and filters
  // ---------------------------------------------------------------------------

  /** `xs` lists the elements of `s`, each once, in some order. */
  predicate ListsExactly(xs: seq<string>, s: set<string>) {
    NoDuplicates(xs) && (forall x | x in xs :: x in s) && (forall x | x in s :: x in xs)
  }

  /**
   * `set.toList()`: the elements in the set's iteration order, which depends
   * on hashing and is left unspecified here.
   */
  method ListOf(s: set<string>) returns (xs: seq<string>)
    ensures ListsExactly(xs, s)
  {
    xs := [];
    var rest := s;
    while rest != {}
      invariant rest <= s
      invariant NoDuplicates(xs)
      invariant forall x | x in xs :: x in s && x !in rest
      invariant forall x | x in s :: x in xs || x in rest
      decreases |rest|
    {
      var x :| x in rest;
      xs := xs + [x];
      rest := rest - {x};
    }
  }

  /** Two sorted listings of one set are the same list, whatever the iteration order. */
  lemma SortedListingUnique(a: seq<string>, b: seq<string>, s: set<string>)
    requires ListsExactly(a, s) && ListsExactly(b, s)
    ensures Sorted(a) == Sorted(b)
  {
    DistinctMultiset(a, s);
    DistinctMultiset(b, s);
    SortedUnique(map[], Sorted(a), Sorted(b));
  }

  /** A duplicate-free listing of `s` has, as a multiset, exactly the elements of `s`. */
  lemma {:induction false} DistinctMultiset(xs: seq<string>, s: set<string>)
    requires ListsExactly(xs, s)
    ensures multiset(xs) == multiset(s)
    decreases |xs|
  {
    if xs != [] {
      var y := xs[|xs| - 1];
      var ys := xs[..|xs| - 1];
      assert xs == ys + [y];
      assert y !in ys by {
        forall i | 0 <= i < |ys| ensures ys[i] != y { assert ys[i] == xs[i]; }
      }
      assert ListsExactly(ys, s - {y}) by {
        forall x | x in s - {y} ensures x in ys {
          assert x in xs;
          var i :| 0 <= i < |xs| && xs[i] == x;
          assert i < |xs| - 1;
          assert ys[i] == x;
        }
      }
      DistinctMultiset(ys, s - {y});
      assert multiset(s) == multiset(s - {y}) + multiset{y};
    }
  }

  lemma NoDuplicatesOfMultiset(a: seq<string>, b: seq<string>)
    requires NoDuplicates(a) && multiset(a) == multiset(b)
    ensures NoDuplicates(b)
  {
    forall x ensures multiset(b)[x] <= 1 { CountAtMostOne(a, x); }
    AtMostOnceNoDuplicates(b);
  }

  lemma {:induction false} CountAtMostOne(a: seq<string>, x: string)
    requires NoDuplicates(a)
    ensures multiset(a)[x] <= 1
    decreases |a|
  {
    if a != [] {
      assert a == [a[0]] + a[1..];
      CountAtMostOne(a[1..], x);
      if a[0] == x {
        forall j | 0 <= j < |a[1..]| ensures a[1..][j] != x { assert a[1..][j] == a[j + 1]; }
      }
    }
  }

  lemma {:induction false} AtMostOnceNoDuplicates(b: seq<string>)
    requires forall x :: multiset(b)[x] <= 1
    ensures NoDuplicates(b)
    decreases |b|
  {
    if b != [] {
      var h, t := b[0], b[1..];
      assert b == [h] + t;
      assert forall x :: multiset(t)[x] <= multiset(b)[x];
      AtMostOnceNoDuplicates(t);
      assert multiset(t)[h] == 0;
      forall i, j | 0 <= i < j < |b| ensures b[i] != b[j] {
        assert b[j] == t[j - 1];
        if i > 0 { assert b[i] == t[i - 1]; } else { assert b[j] in t; }
      }
    }
  }

  /** The elements of `xs` in `keep`, in order (`filter { it in keep }`). */
  method FilterIn(xs: seq<string>, keep: set<string>) returns (r: seq<string>)
    ensures forall x :: x in r <==> x in xs && x in keep
    ensures NoDuplicates(xs) ==> NoDuplicates(r)
    ensures |r| <= |xs|
  {
    r := [];
    var i := 0;
    while i < |xs|
      invariant 0 <= i <= |xs|
      invariant |r| <= i
      invariant forall x :: x in r <==> x in xs[..i] && x in keep
      invariant NoDuplicates(xs) ==> NoDuplicates(r)
    {
      assert xs[..i + 1] == xs[..i] + [xs[i]];
      if xs[i] in keep {
        assert NoDuplicates(xs) ==> xs[i] !in xs[..i];
        r := r + [xs[i]];
      }
      i := i + 1;
    }
    assert xs[..i] == xs;
  }

  /** The elements of `xs` not in `drop`, in order (`filter { it !in drop }`). */
  method FilterOut(xs: seq<string>, drop: set<string>) returns (r: seq<string>)
    ensures forall x :: x in r <==> x in xs && x !in drop
    ensures NoDuplicates(xs) ==> NoDuplicates(r)
  {
    r := [];
    var i := 0;
    while i < |xs|
      invariant 0 <= i <= |xs|
      invariant forall x :: x in r <==> x in xs[..i] && x !in drop
      invariant NoDuplicates(xs) ==> NoDuplicates(r)
    {
      assert xs[..i + 1] == xs[..i] + [xs[i]];
      if xs[i] !in drop {
        assert NoDuplicates(xs) ==> xs[i] !in xs[..i];
        r := r + [xs[i]];
      }
      i := i + 1;
    }
    assert xs[..i] == xs;
  }
}
