/** Properties of the blog endpoint that relate several calls or characterise a step completely. */
module FeedProps {
  import opened Wrappers
  import opened Text
  import opened Feed

  /** Stripping leaves tag-free text untouched, including a `<` that no `>` follows. */
  lemma {:induction false} StripFromKeepsTagFree(s: string, i: nat)
    requires i <= |s|
    requires NoTag(s)
    ensures StripFrom(s, i) == s[i..]
    decreases |s| - i
  {
    if i < |s| {
      if s[i] == '<' {
        assert FindFrom(s, '>', i + 1) == |s|;
      }
      StripFromKeepsTagFree(s, i + 1);
      assert s[i..] == [s[i]] + s[i + 1..];
    }
  }

  lemma StripTagsKeepsTagFree(s: string)
    requires NoTag(s)
    ensures StripTags(s) == s
  {
    StripFromKeepsTagFree(s, 0);
  }

  /** Stripping twice is stripping once. */
  lemma StripTagsIdempotent(s: string)
    ensures StripTags(StripTags(s)) == StripTags(s)
  {
    StripTagsNoTag(s);
    StripTagsKeepsTagFree(StripTags(s));
  }

  /** Characters before the first `<` are kept one by one. */
  lemma {:induction false} StripFromPlain(s: string, a: string, k: nat)
    requires k <= |a| <= |s|
    requires s[..|a|] == a && '<' !in a
    ensures StripFrom(s, k) == a[k..] + StripFrom(s, |a|)
    decreases |a| - k
  {
    if k < |a| {
      assert s[k] == a[k];
      StripFromPlain(s, a, k + 1);
      assert a[k..] == [a[k]] + a[k + 1..];
    }
  }

  /** From position `k` on, `s` agrees with `t` read `i` positions earlier; `t` ends where `s` does. */
  predicate AgreeFrom(s: string, t: string, i: nat, k: nat)
    decreases |s| - k
  {
    i <= k <= |s| && |s| == i + |t| && (k == |s| || (t[k - i] == s[k] && AgreeFrom(s, t, i, k + 1)))
  }

  /** Agreement from a position carries over to every later position. */
  lemma {:induction false} AgreeLater(s: string, t: string, i: nat, k: nat, l: nat)
    requires AgreeFrom(s, t, i, k) && k <= l <= |s|
    ensures AgreeFrom(s, t, i, l)
    decreases l - k
  {
    if k < l {
      AgreeLater(s, t, i, k + 1, l);
    }
  }

  /** A suffix taken by slicing agrees with the text it was taken from. */
  lemma {:induction false} AgreeSlice(s: string, i: nat, k: nat)
    requires i <= k <= |s|
    ensures AgreeFrom(s, s[i..], i, k)
    decreases |s| - k
  {
    if k < |s| {
      AgreeSlice(s, i, k + 1);
      assert s[i..][k - i] == s[k];
    }
  }

  /** Looking for a character in a suffix finds it at the same place, counted from the suffix's start. */
  lemma {:induction false} FindFromShift(s: string, t: string, i: nat, c: char, k: nat)
    requires AgreeFrom(s, t, i, k)
    ensures FindFrom(s, c, k) == i + FindFrom(t, c, k - i)
    decreases |s| - k
  {
    if k < |s| && s[k] != c {
      FindFromShift(s, t, i, c, k + 1);
    }
  }

  /** The scan of `s` from `k` and the scan of `t` from `l` produce the same text. */
  predicate SameScan(s: string, k: nat, t: string, l: nat)
    requires k <= |s| && l <= |t|
  {
    StripFrom(s, k) == StripFrom(t, l)
  }

  /** Scanning from position `k` depends only on the text from any earlier position `i` on. */
  lemma {:induction false} StripFromShift(s: string, t: string, i: nat, k: nat)
    requires AgreeFrom(s, t, i, k)
    ensures SameScan(s, k, t, k - i)
    decreases |s| - k
  {
    if k < |s| {
      var f := FindFrom(s, '>', k + 1);
      FindFromShift(s, t, i, '>', k + 1);
      if s[k] == '<' && f < |s| {
        AgreeLater(s, t, i, k + 1, f + 1);
        StripFromShift(s, t, i, f + 1);
        ShiftTagStep(s, t, i, k, f);
      } else {
        StripFromShift(s, t, i, k + 1);
        ShiftCharStep(s, t, i, k);
      }
    }
  }

  /** One step of the shift at a complete tag: both scans jump past the same `>`. */
  lemma ShiftTagStep(s: string, t: string, i: nat, k: nat, f: nat)
    requires |s| == i + |t| && i <= k < |s|
    requires f == FindFrom(s, '>', k + 1) && s[k] == '<' && f < |s|
    requires t[k - i] == s[k] && f == i + FindFrom(t, '>', k + 1 - i)
    requires SameScan(s, f + 1, t, f + 1 - i)
    ensures SameScan(s, k, t, k - i)
  {
  }

  /** One step of the shift at any other character: both scans keep it and move on. */
  lemma ShiftCharStep(s: string, t: string, i: nat, k: nat)
    requires |s| == i + |t| && i <= k < |s|
    requires !(s[k] == '<' && FindFrom(s, '>', k + 1) < |s|)
    requires t[k - i] == s[k] && FindFrom(s, '>', k + 1) == i + FindFrom(t, '>', k + 1 - i)
    requires SameScan(s, k + 1, t, k + 1 - i)
    ensures SameScan(s, k, t, k - i)
  {
  }

  /** The scan resumed at position `i` strips the rest of the text as if it stood alone. */
  lemma StripFromIsStripTags(s: string, i: nat)
    requires i <= |s|
    ensures StripFrom(s, i) == StripTags(s[i..])
  {
    AgreeSlice(s, i, i);
    StripFromShift(s, s[i..], i, i);
  }

  /**
   The first tag is removed whole: the text before the first `<` is kept, the
   `<`, everything up to the first `>` after it and that `>` are dropped, and
   the text after the `>` is stripped as if it stood alone.
   */
  lemma StripTagsRemovesTag(s: string, n: nat, j: nat)
    requires n < j < |s|
    requires '<' !in s[..n]
    requires s[n] == '<' && s[j] == '>'
    requires forall m :: n < m < j ==> s[m] != '>'
    ensures StripTags(s) == s[..n] + StripTags(s[j + 1..])
  {
    StripFromPlain(s, s[..n], 0);
    assert FindFrom(s, '>', n + 1) == j;
    assert s[..n][0..] == s[..n];
    StripFromIsStripTags(s, j + 1);
  }

  /** Position of the first `>` after index `i`, or `|s|` when there is none. */
  method NextClose(s: string, i: nat) returns (j: nat)
    requires i < |s|
    ensures j == FindFrom(s, '>', i + 1)
  {
    j := i + 1;
    while j < |s| && s[j] != '>'
      invariant i + 1 <= j <= |s|
      invariant forall m :: i < m < j ==> s[m] != '>'
      decreases |s| - j
    {
      j := j + 1;
    }
  }

  /**
   The left-to-right scan a global regular-expression replace performs: at each
   `<`, look ahead for the first `>`; when one exists, skip to just after it,
   otherwise keep the character and move on.
   */
  method StripTagsScan(s: string) returns (r: string)
    ensures r == StripTags(s)
    ensures NoTag(r)
  {
    r := [];
    var i := 0;
    while i < |s|
      invariant 0 <= i <= |s|
      invariant r + StripFrom(s, i) == StripTags(s)
      decreases |s| - i
    {
      var j := i + 1;
      if s[i] == '<' {
        j := NextClose(s, i);
      }
      if s[i] == '<' && j < |s| {
        i := j + 1;
      } else {
        assert r + StripFrom(s, i) == (r + [s[i]]) + StripFrom(s, i + 1);
        r := r + [s[i]];
        i := i + 1;
      }
    }
    StripTagsNoTag(s);
  }

  /** The boilerplate step is undone exactly: after the word and any non-empty whitespace run, the rest is kept. */
  lemma DropIntroInverse(w: string, rest: string)
    requires |w| > 0 && forall k :: 0 <= k < |w| ==> IsWs(w[k])
    requires |rest| > 0 ==> !IsWs(rest[0])
    ensures DropIntro(Intro + w + rest) == rest
  {
    var s := Intro + w + rest;
    assert s[..|Intro|] == Intro;
    assert s[|Intro|] == w[0];
    assert s[|Intro|..] == w + rest;
    DropLeadingWsInverse(w, rest);
  }

  lemma {:induction false} DropLeadingWsInverse(w: string, rest: string)
    requires forall k :: 0 <= k < |w| ==> IsWs(w[k])
    requires |rest| > 0 ==> !IsWs(rest[0])
    ensures DropLeadingWs(w + rest) == rest
    decreases |w|
  {
    if |w| > 0 {
      assert (w + rest)[0] == w[0];
      assert (w + rest)[1..] == w[1..] + rest;
      DropLeadingWsInverse(w[1..], rest);
    } else {
      assert w + rest == rest;
    }
  }

  /** Checking one whitespace character after the word decides whether `^はじめに\s+` matches at all. */
  lemma HasIntroMatches(s: string)
    ensures HasIntro(s) <==> exists n :: IntroMatch(s, n)
  {
    if HasIntro(s) {
      assert IntroMatch(s, |Intro| + 1);
    }
  }

  /** Text that does not open with the word followed by whitespace passes through, e.g. the word alone or the word glued to the next character. */
  lemma DropIntroNeedsWhitespace(rest: string)
    requires |rest| > 0 && !IsWs(rest[0])
    ensures DropIntro(Intro + rest) == Intro + rest
    ensures DropIntro(Intro) == Intro
  {
  }

  /** A falsy description gives the empty excerpt with no marker. */
  lemma ExcerptOfFalsy()
    ensures Excerpt(None) == []
    ensures Excerpt(Some([])) == []
  {
  }

  /** A description that is a single tag still gets the marker, alone. */
  lemma ExcerptOfMarkupOnly(b: string)
    requires '>' !in b
    ensures Excerpt(Some(['<'] + b + ['>'])) == Ellipsis
  {
    var d := ['<'] + b + ['>'];
    forall m | 0 < m < |b| + 1
      ensures d[m] != '>'
    {
      assert d[m] == b[m - 1];
    }
    StripTagsRemovesTag(d, 0, |b| + 1);
    assert d[|b| + 2..] == [];
    assert StripTags(d) == [];
    assert DropIntro([]) == [];
  }

  /** Items after the third never influence the response: the page is the head of the feed, with no sorting or filtering. */
  lemma GetIgnoresTail(status: int, items: seq<RawItem>, extra: seq<RawItem>)
    requires |items| >= PageSize
    ensures Get(Upstream(status, Some(items + extra))) == Get(Upstream(status, Some(items)))
  {
    assert Page(items + extra) == Page(items);
  }

  /** A failing upstream status always gives 500 with the fixed error body, whatever was parsed. */
  lemma GetUpstreamFailure(status: int, items: Option<seq<RawItem>>)
    requires !StatusOk(status)
    ensures Get(Upstream(status, items)) == Response(500, Failure(FetchFailure))
  {
  }

  /** A linkless item among the first three aborts the whole response; one further down does not. */
  lemma GetMissingLink(items: seq<RawItem>, i: nat)
    requires i < |items| && items[i].link.None?
    ensures i < PageSize ==> Get(Upstream(200, Some(items))).status == 500
    ensures i >= PageSize && AllLinked(items[..PageSize]) ==> Get(Upstream(200, Some(items))).status == 200
  {
  }
}
