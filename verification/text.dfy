/**
  The few Go `strings` operations the build command relies on, over
  `string` (a `seq<char>`): Split and Join on a single separator,
  HasPrefix, and Replace with a count of one.
 */
module Text {
  import opened Wrappers

  /** The first index of `s` holding a character of `cs`, or |s| when there is none. */
  function Find(s: string, cs: set<char>): (i: nat)
    ensures i <= |s|
    ensures i < |s| ==> s[i] in cs
    ensures forall k :: 0 <= k < i ==> s[k] !in cs
    decreases |s|
  {
    if |s| == 0 then 0
    else if s[0] in cs then 0
    else 1 + Find(s[1..], cs)
  }

  /** How many times `c` occurs in `s`. */
  function Count(s: string, c: char): (n: nat)
    ensures n == 0 <==> c !in s
    ensures n <= |s|
    decreases |s|
  {
    if |s| == 0 then 0
    else (if s[0] == c then 1 else 0) + Count(s[1..], c)
  }

  /** Counting over a concatenation adds the counts of the parts. */
  lemma {:induction false} CountConcat(a: string, b: string, c: char)
    ensures Count(a + b, c) == Count(a, c) + Count(b, c)
    decreases |a|
  {
    if |a| == 0 {
      assert a + b == b;
    } else {
      assert (a + b)[0] == a[0];
      assert (a + b)[1..] == a[1..] + b;
      CountConcat(a[1..], b, c);
    }
  }

  /** A sequence is the part before index i, the element at i and the part after. */
  lemma Around<T>(s: seq<T>, i: nat)
    requires i < |s|
    ensures s == s[..i] + [s[i]] + s[i + 1..]
  {
  }

  /** strings.Split(s, sep) for a one-character separator. */
  function Split(s: string, sep: char): (parts: seq<string>)
    ensures |parts| == Count(s, sep) + 1
    ensures forall i :: 0 <= i < |parts| ==> sep !in parts[i]
    decreases |s|
  {
    var i := Find(s, {sep});
    if i == |s| then
      assert forall k :: 0 <= k < |s| ==> s[k] != sep;
      [s]
    else
      Around(s, i);
      assert sep !in s[..i] by {
        forall k | 0 <= k < i ensures s[..i][k] != sep {
          assert s[..i][k] == s[k];
        }
      }
      CountConcat(s[..i] + [sep], s[i+1..], sep);
      CountConcat(s[..i], [sep], sep);
      [s[..i]] + Split(s[i+1..], sep)
  }

  /** strings.Join(parts, sep). */
  function Join(parts: seq<string>, sep: string): string {
    if |parts| == 0 then ""
    else if |parts| == 1 then parts[0]
    else parts[0] + sep + Join(parts[1..], sep)
  }

  lemma Join3(a: string, b: string, c: string, sep: string)
    ensures Join([a, b, c], sep) == a + sep + b + sep + c
  {
    assert [a, b, c][1..] == [b, c];
    assert [b, c][1..] == [c];
    assert Join([c], sep) == c;
    assert Join([b, c], sep) == b + sep + c;
  }

  /** strings.HasPrefix(s, prefix). */
  predicate HasPrefix(s: string, prefix: string) {
    |prefix| <= |s| && s[..|prefix|] == prefix
  }

  /** `pat` occurs in `s` starting at index `j`. */
  predicate OccursAt(s: string, pat: string, j: nat) {
    j + |pat| <= |s| && s[j..j + |pat|] == pat
  }

  /** strings.Index(s, pat), with None standing for Go's -1. */
  function Index(s: string, pat: string): (r: Option<nat>)
    ensures r.Some? ==> OccursAt(s, pat, r.value)
    ensures r.Some? ==> forall j :: 0 <= j < r.value ==> !OccursAt(s, pat, j)
    ensures r.None? ==> forall j :: 0 <= j <= |s| ==> !OccursAt(s, pat, j)
    decreases |s|
  {
    if HasPrefix(s, pat) then Some(0)
    else if |s| == 0 then None
    else
      assert !OccursAt(s, pat, 0);
      var r := Index(s[1..], pat);
      assert forall j :: 1 <= j <= |s| ==> (OccursAt(s, pat, j) <==> OccursAt(s[1..], pat, j - 1)) by {
        forall j | 1 <= j <= |s| ensures OccursAt(s, pat, j) <==> OccursAt(s[1..], pat, j - 1) {
          if j + |pat| <= |s| {
            assert s[1..][j - 1..j - 1 + |pat|] == s[j..j + |pat|];
          }
        }
      }
      match r
      case Some(k) => Some(k + 1)
      case None => None
  }

  /** strings.Replace(s, pat, "", 1): the first occurrence of `pat` removed. */
  function RemoveFirst(s: string, pat: string): string {
    match Index(s, pat)
    case Some(i) => s[..i] + s[i + |pat|..]
    case None => s
  }

  /** Removing a pattern without `c` keeps every `c`. */
  lemma CountRemove(s: string, pat: string, c: char)
    requires c !in pat
    ensures Count(RemoveFirst(s, pat), c) == Count(s, c)
  {
    match Index(s, pat)
    case None =>
    case Some(i) =>
      assert s == s[..i] + pat + s[i + |pat|..];
      CountConcat(s[..i] + pat, s[i + |pat|..], c);
      CountConcat(s[..i], pat, c);
      CountConcat(s[..i], s[i + |pat|..], c);
  }

  /** Replacing one line by a line without `c` leaves every line without `c`. */
  lemma UpdateFree(lines: seq<string>, i: nat, x: string, c: char, updated: seq<string>)
    requires i < |lines| && c !in x && updated == lines[i := x]
    requires forall l <- lines :: c !in l
    ensures forall j :: 0 <= j < |updated| ==> c !in updated[j]
  {
  }

  /** An element of the second part is in the concatenation. */
  lemma InRight<T>(a: seq<T>, b: seq<T>, x: T)
    requires x in b
    ensures x in a + b
  {
    var i :| 0 <= i < |b| && b[i] == x;
    assert (a + b)[|a| + i] == x;
  }

  /** A character in both parts occurs at least twice in the concatenation. */
  lemma CountBoth(a: string, b: string, c: char)
    requires c in a && c in b
    ensures Count(a + b, c) >= 2
  {
    CountConcat(a, b, c);
  }

  /** A string starts with its own first part, and dropping that part leaves the rest. */
  lemma PrefixKept(a: string, b: string)
    ensures HasPrefix(a + b, a) && (a + b)[|a|..] == b
  {
  }

  /** Removing a pattern that starts the string just drops it. */
  lemma RemoveLeading(s: string, pat: string)
    requires HasPrefix(s, pat)
    ensures RemoveFirst(s, pat) == s[|pat|..]
  {
    assert OccursAt(s, pat, 0);
  }

  /** Searching a concatenation skips a first part that holds none of the characters. */
  lemma {:induction false} FindConcat(a: string, b: string, cs: set<char>)
    requires forall c <- a :: c !in cs
    ensures Find(a + b, cs) == |a| + Find(b, cs)
    decreases |a|
  {
    if |a| > 0 {
      assert (a + b)[1..] == a[1..] + b;
      assert a[0] in a;
      FindConcat(a[1..], b, cs);
    } else {
      assert a + b == b;
    }
  }

  /** The first separator of `a + [c] + b` is the one placed after `a`. */
  lemma {:induction false} FindAfter(a: string, c: char, b: string)
    requires c !in a
    ensures Find(a + [c] + b, {c}) == |a|
  {
    var s := a + [c] + b;
    assert s[|a|] == c;
  }

  /** Joining the pieces of a split gives back the string (strings.Split / strings.Join are inverse). */
  lemma {:induction false} JoinSplit(s: string, sep: char)
    ensures Join(Split(s, sep), [sep]) == s
    decreases |s|
  {
    var i := Find(s, {sep});
    if i < |s| {
      var rest := Split(s[i+1..], sep);
      JoinSplit(s[i+1..], sep);
      assert Split(s, sep) == [s[..i]] + rest;
      assert ([s[..i]] + rest)[1..] == rest;
      Around(s, i);
    }
  }

  /** Splitting a join of separator-free pieces gives back the pieces. */
  lemma {:induction false} SplitJoin(parts: seq<string>, sep: char)
    requires |parts| >= 1
    requires forall i :: 0 <= i < |parts| ==> sep !in parts[i]
    ensures Split(Join(parts, [sep]), sep) == parts
    decreases |parts|
  {
    if |parts| == 1 {
      var s := parts[0];
      assert Find(s, {sep}) == |s|;
    } else {
      var tail := Join(parts[1..], [sep]);
      assert Join(parts, [sep]) == parts[0] + [sep] + tail;
      SplitAt(parts[0], sep, tail);
      SplitJoin(parts[1..], sep);
      assert parts == [parts[0]] + parts[1..];
    }
  }

  /** Splitting at the first separator: the piece before it, then the pieces of the rest. */
  lemma SplitAt(a: string, sep: char, b: string)
    requires sep !in a
    ensures Split(a + [sep] + b, sep) == [a] + Split(b, sep)
  {
    var s := a + [sep] + b;
    FindAfter(a, sep, b);
    assert s[..|a|] == a;
    assert s[|a| + 1..] == b;
  }

  /** The first piece of a split runs up to the first separator. */
  lemma SplitHead(s: string, sep: char)
    ensures Split(s, sep)[0] == s[..Find(s, {sep})]
  {
  }

  /** A string that splits into two pieces is those pieces around its only separator. */
  lemma SplitTwo(s: string, sep: char)
    requires |Split(s, sep)| == 2
    ensures s == Split(s, sep)[0] + [sep] + Split(s, sep)[1]
    ensures Find(s, {sep}) == |Split(s, sep)[0]|
  {
    var i := Find(s, {sep});
    var rest := Split(s[i + 1..], sep);
    assert Split(s, sep) == [s[..i]] + rest;
    Around(s, i);
  }

  /** A string without `c` splits into itself alone. */
  lemma SplitNone(s: string, c: char)
    requires c !in s
    ensures Split(s, c) == [s]
  {
    SplitJoin([s], c);
  }

  /** Splitting `a + [c] + b` where neither side contains `c` gives the two sides. */
  lemma SplitPair(a: string, c: char, b: string)
    requires c !in a && c !in b
    ensures Split(a + [c] + b, c) == [a, b]
  {
    SplitJoin([a, b], c);
    assert Join([a, b], [c]) == a + [c] + b;
  }
}
