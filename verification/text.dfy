/**
 Character-sequence helpers shared by the feed normaliser and the contact relay:
 first-occurrence search, a model of JavaScript's `String.prototype.split` with a
 one-character separator together with its inverse `Join`, and the whitespace
 class `\s` of JavaScript regular expressions.
 */
module Text {

  /**
   JavaScript's `\s`: the ECMAScript WhiteSpace and LineTerminator code points.
   The ASCII controls tab through carriage return and the space belong to it; no
   visible ASCII character does.
   */
  function IsWs(c: char): (b: bool)
    ensures c == ' ' || '\t' <= c <= '\r' ==> b
    ensures '!' <= c <= '~' ==> !b
  {
    || c == ' ' || c == '\t' || c == '\n' || c == '\U{000B}' || c == '\U{000C}' || c == '\r'
    || c == '\U{00A0}' || c == '\U{1680}' || ('\U{2000}' <= c <= '\U{200A}')
    || c == '\U{2028}' || c == '\U{2029}' || c == '\U{202F}' || c == '\U{205F}'
    || c == '\U{3000}' || c == '\U{FEFF}'
  }

  function Min(a: int, b: int): int {
    if a <= b then a else b
  }

  /** `t` appears in `s` starting at index `k`. */
  predicate OccursAt(s: string, t: string, k: int) {
    0 <= k && k + |t| <= |s| && s[k..k + |t|] == t
  }

  predicate IsSuffix(r: string, s: string) {
    |r| <= |s| && s[|s| - |r|..] == r
  }

  /** Index of the first `c` in `s` at or after `from`, or `|s|` when there is none. */
  function FindFrom(s: string, c: char, from: nat): (k: nat)
    requires from <= |s|
    ensures from <= k <= |s|
    ensures k < |s| ==> s[k] == c
    ensures forall m :: from <= m < k ==> s[m] != c
    decreases |s| - from
  {
    if from == |s| then from
    else if s[from] == c then from
    else FindFrom(s, c, from + 1)
  }

  /** Index of the first `c` in `s`, or `|s|` when there is none. */
  function Find(s: string, c: char): (k: nat)
    ensures k <= |s|
    ensures k < |s| ==> s[k] == c
    ensures k == |s| <==> c !in s
  {
    FindFrom(s, c, 0)
  }

  /** `s.split(sep)`: the maximal `sep`-free runs of `s`, in order; never empty. */
  function Split(s: string, sep: char): (parts: seq<string>)
    ensures |parts| >= 1
    ensures forall i :: 0 <= i < |parts| ==> sep !in parts[i]
  {
    if |s| == 0 then [[]]
    else
      var rest := Split(s[1..], sep);
      if s[0] == sep then [[]] + rest
      else [[s[0]] + rest[0]] + rest[1..]
  }

  /** `parts.join(sep)`. */
  function Join(parts: seq<string>, sep: char): string {
    if |parts| == 0 then []
    else if |parts| == 1 then parts[0]
    else parts[0] + [sep] + Join(parts[1..], sep)
  }

  function Last(parts: seq<string>): string
    requires |parts| >= 1
  {
    parts[|parts| - 1]
  }

  /** Joining the pieces of a split gives back the original text. */
  lemma {:induction false} JoinSplit(s: string, sep: char)
    ensures Join(Split(s, sep), sep) == s
  {
    if |s| > 0 {
      var rest := Split(s[1..], sep);
      JoinSplit(s[1..], sep);
      if s[0] == sep {
        assert ([[]] + rest)[1..] == rest;
      } else {
        var parts := [[s[0]] + rest[0]] + rest[1..];
        if |rest| > 1 {
          assert parts[1..] == rest[1..];
        }
      }
    }
  }

  /** Splitting a separator-free text gives the text alone. */
  lemma {:induction false} SplitNoSep(a: string, sep: char)
    requires sep !in a
    ensures Split(a, sep) == [a]
  {
    if |a| > 0 {
      SplitNoSep(a[1..], sep);
      assert [a[0]] + a[1..] == a;
    }
  }

  /** A separator-free piece followed by the separator splits off as one part. */
  lemma {:induction false} SplitCons(a: string, t: string, sep: char)
    requires sep !in a
    ensures Split(a + [sep] + t, sep) == [a] + Split(t, sep)
  {
    var s := a + [sep] + t;
    if |a| == 0 {
      assert s[1..] == t;
    } else {
      assert s[1..] == a[1..] + [sep] + t;
      SplitCons(a[1..], t, sep);
      assert [a[0]] + a[1..] == a;
    }
  }

  /** Splitting the join of separator-free parts gives the parts back. */
  lemma {:induction false} SplitJoin(parts: seq<string>, sep: char)
    requires |parts| >= 1
    requires forall i :: 0 <= i < |parts| ==> sep !in parts[i]
    ensures Split(Join(parts, sep), sep) == parts
  {
    if |parts| == 1 {
      SplitNoSep(parts[0], sep);
    } else {
      SplitJoin(parts[1..], sep);
      SplitCons(parts[0], Join(parts[1..], sep), sep);
      assert [parts[0]] + parts[1..] == parts;
    }
  }

  /** The last part closes the join, preceded by a separator when more parts come before it. */
  lemma {:induction false} JoinTail(parts: seq<string>, sep: char)
    requires |parts| >= 1
    ensures IsSuffix(Last(parts), Join(parts, sep))
    ensures |parts| >= 2 ==>
      |Last(parts)| < |Join(parts, sep)| && Join(parts, sep)[|Join(parts, sep)| - |Last(parts)| - 1] == sep
  {
    if |parts| >= 2 {
      var tail := parts[1..];
      var jt := Join(tail, sep);
      var last := Last(parts);
      JoinTail(tail, sep);
      assert Last(tail) == last;
      var j := parts[0] + [sep] + jt;
      assert Join(parts, sep) == j;
      assert j[|j| - |last|..] == jt[|jt| - |last|..];
      if |tail| == 1 {
        assert jt == last;
        assert j[|j| - |last| - 1] == sep;
      } else {
        assert j[|j| - |last| - 1] == jt[|jt| - |last| - 1];
      }
    }
  }

  /** `s.split(sep)[0]` is the text before the first separator. */
  lemma SplitHead(s: string, sep: char)
    ensures Split(s, sep)[0] == s[..Find(s, sep)]
  {
  }

  /** `s.split(sep).pop()` is a suffix of `s`. */
  lemma SplitLastSuffix(s: string, sep: char)
    ensures IsSuffix(Last(Split(s, sep)), s)
  {
    JoinSplit(s, sep);
    JoinTail(Split(s, sep), sep);
  }

  /** Without a separator, `s.split(sep).pop()` is all of `s`. */
  lemma SplitLastNoSep(s: string, sep: char)
    requires sep !in s
    ensures Last(Split(s, sep)) == s
  {
    SplitNoSep(s, sep);
  }

  /** With a separator, `s.split(sep).pop()` is the text after the last one: a separator stands right before it. */
  lemma SplitLastAfterSep(s: string, sep: char)
    requires sep in s
    ensures |Last(Split(s, sep))| < |s| && s[|s| - |Last(Split(s, sep))| - 1] == sep
  {
    JoinSplit(s, sep);
    JoinTail(Split(s, sep), sep);
  }
}
