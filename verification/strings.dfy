/**
 The handful of JavaScript string operations the admission engine relies on
 (`startsWith`, `includes`, `split('/')`, counting regex matches), written as
 total functions over `seq<char>`.
 */
module Strings {

  /** `s.startsWith(p)`. */
  predicate StartsWith(s: string, p: string) {
    |p| <= |s| && s[..|p|] == p
  }

  /** `s.endsWith(p)`. */
  predicate EndsWith(s: string, p: string) {
    |p| <= |s| && s[|s| - |p|..] == p
  }

  /** `s.includes(sub)`: some suffix of `s` starts with `sub`. */
  predicate Contains(s: string, sub: string)
    decreases |s|
  {
    StartsWith(s, sub) || (|s| > 0 && Contains(s[1..], sub))
  }

  /** Number of occurrences of `c` in `s`: `(s.match(/c/g) || []).length`. */
  function CountChar(s: string, c: char): nat
    decreases |s|
  {
    if s == [] then 0
    else (if s[0] == c then 1 else 0) + CountChar(s[1..], c)
  }

  /**
   Number of matches of the global regex for a double star, which scans left
   to right and never lets two matches overlap: three stars hold one match,
   four stars two.
   */
  function CountDoubleStars(s: string): (n: nat)
    ensures 2 * n <= CountChar(s, '*')
    decreases |s|
  {
    if |s| >= 2 && s[0] == '*' && s[1] == '*' then
      assert s[2..] == s[1..][1..];
      1 + CountDoubleStars(s[2..])
    else if s == [] then 0
    else CountDoubleStars(s[1..])
  }

  /** Joins non-empty `parts` with `/` between consecutive parts: `parts.join('/')`. */
  function Join(parts: seq<string>): string
    requires |parts| >= 1
    decreases |parts|
  {
    if |parts| == 1 then parts[0] else parts[0] + "/" + Join(parts[1..])
  }

  /** The count is zero exactly when the character does not occur. */
  lemma {:induction false} CountCharZero(s: string, c: char)
    ensures CountChar(s, c) == 0 <==> c !in s
    decreases |s|
  {
    if s != [] {
      CountCharZero(s[1..], c);
      assert s == [s[0]] + s[1..];
    }
  }

  /** Counting distributes over concatenation. */
  lemma {:induction false} CountCharConcat(a: string, b: string, c: char)
    ensures CountChar(a + b, c) == CountChar(a, c) + CountChar(b, c)
    decreases |a|
  {
    if a != [] {
      assert (a + b)[1..] == a[1..] + b;
      CountCharConcat(a[1..], b, c);
    } else {
      assert a + b == b;
    }
  }

  /** Index of the first occurrence of `c` in `s`. */
  function IndexOf(s: string, c: char): (i: nat)
    requires c in s
    ensures i < |s| && s[i] == c && c !in s[..i]
    decreases |s|
  {
    if s[0] == c then 0
    else
      assert s[1..][..IndexOf(s[1..], c)] == s[1..IndexOf(s[1..], c) + 1];
      1 + IndexOf(s[1..], c)
  }

  /** Cutting `s` at its first `/`. */
  lemma CutAtSlash(s: string, i: nat)
    requires i < |s| && s[i] == '/' && '/' !in s[..i]
    ensures s == s[..i] + "/" + s[i + 1..]
    ensures CountChar(s, '/') == 1 + CountChar(s[i + 1..], '/')
  {
    var head, tail := s[..i], s[i..];
    assert s == head + tail;
    assert tail[0] == '/' && tail[1..] == s[i + 1..];
    assert tail == "/" + tail[1..];
    CountCharZero(head, '/');
    CountCharConcat(head, tail, '/');
  }

  /**
   `s.split('/')`: the maximal `/`-free runs of `s`, in order, so there is
   always one more part than there are slashes and no part holds a `/`
   (`SplitJoin` shows that the parts join back to `s`).
   */
  function Split(s: string): (parts: seq<string>)
    ensures |parts| == CountChar(s, '/') + 1
    ensures forall k :: 0 <= k < |parts| ==> '/' !in parts[k]
    decreases |s|
  {
    if '/' !in s then
      CountCharZero(s, '/');
      [s]
    else
      var i := IndexOf(s, '/');
      CutAtSlash(s, i);
      var rest := Split(s[i + 1..]);
      assert forall k :: 1 <= k < |rest| + 1 ==> ([s[..i]] + rest)[k] == rest[k - 1];
      [s[..i]] + rest
  }

  /** Splitting on `/` loses nothing: joining the parts with `/` restores the string. */
  lemma {:induction false} SplitJoin(s: string)
    ensures Join(Split(s)) == s
    decreases |s|
  {
    if '/' in s {
      var i := IndexOf(s, '/');
      CutAtSlash(s, i);
      SplitJoin(s[i + 1..]);
      assert ([s[..i]] + Split(s[i + 1..]))[1..] == Split(s[i + 1..]);
    }
  }

  /** A `/`-free head followed by `/` splits off as the first part. */
  lemma SplitHead(head: string, tail: string)
    requires '/' !in head
    ensures Split(head + "/" + tail) == [head] + Split(tail)
  {
    var s := head + "/" + tail;
    assert s[|head|] == '/' && s[..|head|] == head;
    assert s[|head| + 1..] == tail;
  }

  /**
   `Split` is the only way to cut a string into `/`-free parts that join back
   to it: any such cut is `Split`'s.
   */
  lemma {:induction false} SplitUnique(s: string, parts: seq<string>)
    requires |parts| >= 1 && Join(parts) == s
    requires forall i :: 0 <= i < |parts| ==> '/' !in parts[i]
    ensures Split(s) == parts
    decreases |parts|
  {
    if |parts| > 1 {
      SplitUnique(Join(parts[1..]), parts[1..]);
      SplitHead(parts[0], Join(parts[1..]));
      assert [parts[0]] + parts[1..] == parts;
    }
  }

  /** An occurrence of `sub` in `s` contributes all of `sub`'s characters to `s`. */
  lemma {:induction false} ContainsCountChar(s: string, sub: string, c: char)
    requires Contains(s, sub)
    ensures CountChar(sub, c) <= CountChar(s, c)
    decreases |s|
  {
    if StartsWith(s, sub) {
      assert s == sub + s[|sub|..];
      CountCharConcat(sub, s[|sub|..], c);
    } else {
      ContainsCountChar(s[1..], sub, c);
      assert s == [s[0]] + s[1..];
      CountCharConcat([s[0]], s[1..], c);
    }
  }

  /** An occurrence of `sub` at index `i` of `s` makes `s.includes(sub)` true. */
  lemma {:induction false} ContainsAt(s: string, sub: string, i: nat)
    requires i + |sub| <= |s| && s[i..i + |sub|] == sub
    ensures Contains(s, sub)
    decreases i
  {
    if i > 0 {
      assert s[1..][i - 1..i - 1 + |sub|] == s[i..i + |sub|];
      ContainsAt(s[1..], sub, i - 1);
    }
  }

  /** A prefix of a prefix is a prefix. */
  lemma StartsWithTransitive(s: string, p: string, q: string)
    requires StartsWith(s, p) && StartsWith(p, q)
    ensures StartsWith(s, q)
  {
    assert s[..|q|] == s[..|p|][..|q|];
  }

  /** Two strings that start with different characters are different. */
  lemma FirstCharDistinguishes(s: string, t: string)
    requires |s| > 0 && |t| > 0 && s[0] != t[0]
    ensures s != t
  {
  }
}
