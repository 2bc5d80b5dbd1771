/**
 The blog endpoint (`GET /api/blog`): it turns the item list of the owner's RSS
 feed into at most three preview records. Fetching and XML parsing happen outside
 the model; the endpoint sees the upstream status code and the parsed
 `rss.channel.item` list, which is absent when the document lacks that path.
 */
module Feed {
  import opened Wrappers
  import opened Text

  /** Number of entries kept, taken from the head of the feed. */
  const PageSize: nat := 3
  /** Number of characters of the description kept in an excerpt. */
  const ExcerptBudget: nat := 100
  const Ellipsis: string := "..."
  /** The boilerplate opening ("Introduction") that many posts start with. */
  const Intro: string := "はじめに"
  const FetchFailure: string := "Failed to fetch blog posts"

  /** One parsed `<item>`; each child element may be missing. */
  datatype RawItem = RawItem(
    title: Option<string>,
    link: Option<string>,
    pubDate: Option<string>,
    description: Option<string>,
    thumbnail: Option<string>)

  /** One normalised preview record of the JSON response. */
  datatype Post = Post(
    id: string,
    title: Option<string>,
    excerpt: string,
    publishedAt: Option<string>,
    url: string,
    thumbnailUrl: string)

  /** What the fetch and the parser deliver: the HTTP status and the item list if the document has one. */
  datatype Upstream = Upstream(status: int, items: Option<seq<RawItem>>)

  datatype Body = Posts(posts: seq<Post>) | Failure(error: string)
  datatype Response = Response(status: nat, body: Body)

  /** `Response.ok`: a status of the 2xx class. */
  function StatusOk(status: int): (b: bool)
    ensures b <==> status / 100 == 2
  {
    200 <= status <= 299
  }

  /** No `<` is followed, anywhere later, by a `>`: the text holds no `<…>` tag. */
  predicate NoTag(s: string) {
    forall i, j :: 0 <= i < j < |s| && s[i] == '<' ==> s[j] != '>'
  }

  // ---------------------------------------------------------------------------
  // Thumbnail and id

  /** `media:thumbnail` with its query string cut off, or empty when the field is falsy. */
  function ThumbnailUrl(t: Option<string>): (r: string)
    ensures '?' !in r
    ensures !Truthy(t) ==> r == []
    ensures Truthy(t) ==> r <= t.value
    ensures Truthy(t) && '?' !in t.value ==> r == t.value
    ensures Truthy(t) && '?' in t.value ==> |r| < |t.value| && t.value[|r|] == '?'
  {
    if Truthy(t) then
      if '?' in t.value then
        SplitHead(t.value, '?');
        Split(t.value, '?')[0]
      else t.value
    else []
  }

  /** `link.split('/').pop()`: the last path segment of the link. */
  function PostId(link: string): (r: string)
    ensures '/' !in r
    ensures IsSuffix(r, link)
    ensures '/' !in link ==> r == link
    ensures '/' in link ==> |r| < |link| && link[|link| - |r| - 1] == '/'
  {
    SplitLastSuffix(link, '/');
    if '/' in link then SplitLastAfterSep(link, '/'); Last(Split(link, '/'))
    else SplitLastNoSep(link, '/'); Last(Split(link, '/'))
  }

  // ---------------------------------------------------------------------------
  // Excerpt pipeline

  /**
   `s.replace(/<[^>]*>/g, '')`: the text with every `<…>` tag removed. The
   scan starts at index 0; see `StripFrom`.
   */
  function StripTags(s: string): (r: string)
    ensures |r| <= |s|
  {
    StripFrom(s, 0)
  }

  /**
   The global replace scanning from index `i`: a `<` that has a `>` after it is
   removed together with everything up to the first such `>`, and the scan
   resumes after that `>`; any other character is kept.
   */
  function StripFrom(s: string, i: nat): (r: string)
    requires i <= |s|
    ensures |r| <= |s| - i
    decreases |s| - i
  {
    if i == |s| then []
    else if s[i] == '<' && FindFrom(s, '>', i + 1) < |s| then
      StripFrom(s, FindFrom(s, '>', i + 1) + 1)
    else
      [s[i]] + StripFrom(s, i + 1)
  }

  /** Stripping never introduces a `>`. */
  lemma {:induction false} StripFromNoClose(s: string, i: nat)
    requires i <= |s|
    requires forall m :: i <= m < |s| ==> s[m] != '>'
    ensures '>' !in StripFrom(s, i)
    decreases |s| - i
  {
    if i < |s| {
      StripFromNoClose(s, i + 1);
    }
  }

  /** Stripping leaves no tag behind. */
  lemma {:induction false} StripFromNoTag(s: string, i: nat)
    requires i <= |s|
    ensures NoTag(StripFrom(s, i))
    decreases |s| - i
  {
    if i < |s| {
      var k := FindFrom(s, '>', i + 1);
      if s[i] == '<' && k < |s| {
        StripFromNoTag(s, k + 1);
      } else {
        var t := StripFrom(s, i + 1);
        StripFromNoTag(s, i + 1);
        if s[i] == '<' {
          StripFromNoClose(s, i + 1);
        }
        var r := [s[i]] + t;
        forall p, q | 0 <= p < q < |r| && r[p] == '<'
          ensures r[q] != '>'
        {
          assert r[q] == t[q - 1];
          if p > 0 {
            assert r[p] == t[p - 1];
          }
        }
      }
    }
  }

  lemma StripTagsNoTag(s: string)
    ensures NoTag(StripTags(s))
  {
    StripFromNoTag(s, 0);
  }

  /** The greedy `\s+` tail of the boilerplate pattern: drops the leading whitespace run. */
  function DropLeadingWs(s: string): (r: string)
    ensures IsSuffix(r, s)
    ensures forall k :: 0 <= k < |s| - |r| ==> IsWs(s[k])
    ensures |r| > 0 ==> !IsWs(r[0])
  {
    if |s| > 0 && IsWs(s[0]) then DropLeadingWs(s[1..]) else s
  }

  /** `^はじめに\s+` matches the prefix `s[..n]`: the word, then only whitespace, at least one. */
  predicate IntroMatch(s: string, n: nat) {
    |Intro| < n <= |s| && s[..|Intro|] == Intro && forall k :: |Intro| <= k < n ==> IsWs(s[k])
  }

  /** The text opens with the boilerplate word and at least one whitespace character. */
  predicate HasIntro(s: string) {
    |s| > |Intro| && s[..|Intro|] == Intro && IsWs(s[|Intro|])
  }

  /** `s.replace(/^はじめに\s+/, '')`. */
  function DropIntro(s: string): (r: string)
    ensures !HasIntro(s) ==> r == s
    ensures HasIntro(s) ==>
      && |r| < |s| - |Intro|
      && IsSuffix(r, s)
      && (forall k :: |Intro| <= k < |s| - |r| ==> IsWs(s[k]))
      && (|r| > 0 ==> !IsWs(r[0]))
  {
    if HasIntro(s) then DropLeadingWs(s[|Intro|..]) else s
  }

  /** `s.substring(0, 100) + '...'`: the marker is appended even to short text. */
  function Truncate(s: string): (r: string)
    ensures |r| == Min(|s|, ExcerptBudget) + |Ellipsis|
    ensures r[|r| - |Ellipsis|..] == Ellipsis
    ensures r[..|r| - |Ellipsis|] <= s
    ensures |s| <= ExcerptBudget ==> r == s + Ellipsis
  {
    s[..Min(|s|, ExcerptBudget)] + Ellipsis
  }

  /** The excerpt of a description: tags stripped, boilerplate dropped, cut and marked; empty for a falsy description. */
  function Excerpt(description: Option<string>): (r: string)
    ensures !Truthy(description) ==> r == []
    ensures Truthy(description) ==>
      && |Ellipsis| <= |r| <= ExcerptBudget + |Ellipsis|
      && r[|r| - |Ellipsis|..] == Ellipsis
    ensures Truthy(description) ==> r == Truncate(DropIntro(StripTags(description.value)))
    ensures NoTag(r)
  {
    if Truthy(description) then
      var stripped := StripTags(description.value);
      StripTagsNoTag(description.value);
      var body := DropIntro(stripped);
      NoTagSlice(stripped, |stripped| - |body|, |stripped|);
      var cut := body[..Min(|body|, ExcerptBudget)];
      NoTagSlice(body, 0, |cut|);
      NoTagAppendTagFree(cut, Ellipsis);
      Truncate(body)
    else []
  }

  /** Tag-freedom is kept by taking a slice. */
  lemma NoTagSlice(s: string, lo: int, hi: int)
    requires NoTag(s)
    requires 0 <= lo <= hi <= |s|
    ensures NoTag(s[lo..hi])
  {
  }

  /** Appending text with no `<` and no `>` keeps tag-freedom. */
  lemma NoTagAppendTagFree(s: string, t: string)
    requires NoTag(s)
    requires '<' !in t && '>' !in t
    ensures NoTag(s + t)
  {
  }

  // ---------------------------------------------------------------------------
  // Records and the endpoint

  /** The preview record built from one item; the item's link must be present. */
  function Normalize(item: RawItem): (p: Post)
    requires item.link.Some?
    ensures p.url == item.link.value
    ensures p.title == item.title && p.publishedAt == item.pubDate
    ensures p.id == PostId(item.link.value)
    ensures '/' !in p.id && IsSuffix(p.id, p.url)
    ensures '?' !in p.thumbnailUrl
    ensures p.excerpt == Excerpt(item.description)
    ensures p.thumbnailUrl == ThumbnailUrl(item.thumbnail)
  {
    Post(
      id := PostId(item.link.value),
      title := item.title,
      excerpt := Excerpt(item.description),
      publishedAt := item.pubDate,
      url := item.link.value,
      thumbnailUrl := ThumbnailUrl(item.thumbnail))
  }

  /** Every item has a link, so `item.link.split` does not throw. */
  function AllLinked(items: seq<RawItem>): (b: bool)
    ensures b <==> !exists item :: item in items && item.link == None
  {
    forall i :: 0 <= i < |items| ==> items[i].link.Some?
  }

  /** `items.map(...)`: entry `i` is built from item `i`. */
  function NormalizeAll(items: seq<RawItem>): (posts: seq<Post>)
    requires AllLinked(items)
    ensures |posts| == |items|
    ensures forall i :: 0 <= i < |items| ==> posts[i] == Normalize(items[i])
  {
    if |items| == 0 then []
    else [Normalize(items[0])] + NormalizeAll(items[1..])
  }

  /** `items.slice(0, 3)`. */
  function Page(items: seq<RawItem>): (page: seq<RawItem>)
    ensures |page| == Min(|items|, PageSize)
    ensures page <= items
  {
    items[..Min(|items|, PageSize)]
  }

  /** The endpoint: the first three items normalised, or status 500 with the fixed error body when anything throws. */
  function Get(up: Upstream): (r: Response)
    ensures r.status == 200 || r.status == 500
    ensures r.status == 200 <==>
      StatusOk(up.status) && up.items.Some? && AllLinked(Page(up.items.value))
    ensures r.status == 500 ==> r.body == Failure(FetchFailure)
    ensures r.status == 200 ==>
      && r.body.Posts?
      && |r.body.posts| == Min(|up.items.value|, PageSize)
      && forall i :: 0 <= i < |r.body.posts| ==> r.body.posts[i] == Normalize(up.items.value[i])
  {
    if !StatusOk(up.status) || up.items.None? then Response(500, Failure(FetchFailure))
    else
      var page := Page(up.items.value);
      if AllLinked(page) then Response(200, Posts(NormalizeAll(page)))
      else Response(500, Failure(FetchFailure))
  }
}
