# Portfolio site back end: RSS preview normaliser and contact-form relay

This project models the two pieces of server-side logic of a personal portfolio
website (a Next.js application), as pure Dafny functions over `seq<char>`:

- **`GET /api/blog`** (`src/app/api/blog/route.ts`). It reads the owner's RSS
  feed and answers with the first three `<item>` entries as preview records.
  Each record holds `id`, `title`, `excerpt`, `publishedAt`, `url` and
  `thumbnailUrl`. The excerpt is the description with `<…>` tags removed, a
  leading `はじめに` ("Introduction") plus whitespace removed, then cut to 100
  characters with `...` appended. The thumbnail loses its query string. The id
  is the last path segment of the link. Any failure answers 500 with
  `{"error": "Failed to fetch blog posts"}`.
- **`POST /api/contact`** (`src/app/api/contact/route.ts`). It rejects a
  submission whose `name`, `email` or `message` is falsy with 400. Otherwise it
  composes a mail from and to the owner's address, with the name in the subject
  and all three values in a plain-text body and an HTML body. It hands the mail
  to the transport and answers 200 on delivery or 500 on failure.

Modules:

| file | module | contents |
|---|---|---|
| `wrappers.dfy` | `Wrappers` | `Option` for absent JSON fields and XML children; `Truthy`, JavaScript truthiness of an optional string, used by both endpoints |
| `text.dfy` | `Text` | JavaScript `\s`, first-occurrence search, `split`/`join` with round trips |
| `feed.dfy` | `Feed` | the blog endpoint: records, excerpt pipeline, thumbnail, id, response |
| `feed_props.dfy` | `FeedProps` | lemmas about tag stripping, the boilerplate step and the endpoint; a scanning implementation of the tag regex |
| `contact.dfy` | `Contact` | the contact endpoint: validation, mail composition, outcome mapping |
| `contact_props.dfy` | `ContactProps` | lemmas about the subject line and the outcome |

Inputs that stand in for I/O:

- `Feed.Upstream(status, items)` is the HTTP status of the feed fetch plus the
  parsed `rss.channel.item` list. The list is `None` whenever no list is
  obtained:
  - `fetch` rejects (blog/route.ts:6);
  - `response.text()` or `parser.parse` throws (lines 14 and 21);
  - the document has no `rss`, so reading `.channel` throws, or no
    `channel`, so reading `.item` throws (line 22);
  - the channel has no `<item>`. Then line 22 yields `undefined` without
    throwing, and `items.slice` throws at line 25.

  With no list the response is 500 whatever the status.
- An empty feed is therefore `None`, not `Some([])`, and the route handler
  answers it with 500. The parser wraps only tags that occur in a list
  (`isArray`, line 18), so it never produces an empty item list.
  `Upstream(_, Some([]))`, which `Feed.Get` answers with 200 and `[]`, does
  not arise from the route handler.
- `Contact.HandlePost(request, send)` takes the parsed JSON body and the
  transport's answer. The body is `None` when `request.json()` throws, and
  also when it yields `null`, because destructuring `null` throws
  (contact/route.ts:8). The result records the mail handed to the transport
  (`handedOff`), or `None` when no send was attempted.

Behaviour of the route handlers that the model keeps:

- A fetch error, a non-2xx status and a parse error all give the same 500
  response, because one `catch` handles every exception.
- An item without `link` among the first three makes `item.link.split`
  throw, which fails the whole response with 500 (`Feed.Get`,
  `FeedProps.GetMissingLink`).
- An empty-string contact field is rejected like a missing one, because
  validation tests falsiness.
- `thumbnailUrl` is always emitted, as `""` when the field is falsy.

## Model

| member | source | states |
|---|---|---|
| `Wrappers.Truthy` | src/app/api/blog/route.ts:39 | a field is truthy exactly when it is neither absent nor the empty string; the same test guards the thumbnail (line 28) and the contact fields (contact/route.ts:11) |
| `Text.IsWs` | src/app/api/blog/route.ts:43 | `\s` includes the space and the ASCII controls tab through carriage return, and no visible ASCII character |
| `Text.FindFrom` | src/app/api/blog/route.ts:41 | the result is the first index at or after the start holding the character (`[^>]*>` stops at the first `>`), or the length when none |
| `Text.Split` | src/app/api/blog/route.ts:33 | `split` returns at least one piece, and no piece contains the separator |
| `Text.JoinSplit` | src/app/api/blog/route.ts:33 | joining the pieces of a split with the separator gives the original text back |
| `Text.SplitJoin` | src/app/api/blog/route.ts:49 | splitting the join of separator-free pieces gives the pieces back |
| `Text.SplitHead` | src/app/api/blog/route.ts:33 | `split(sep)[0]` is the text before the first separator |
| `Text.SplitLastSuffix` | src/app/api/blog/route.ts:49 | `split(sep).pop()` is a suffix of the text |
| `Text.SplitLastNoSep` | src/app/api/blog/route.ts:49 | on text without the separator, `split(sep).pop()` is the whole text |
| `Text.SplitLastAfterSep` | src/app/api/blog/route.ts:49 | on text with the separator, `split(sep).pop()` is shorter than the text and the separator stands right before it |
| `Feed.StatusOk` | src/app/api/blog/route.ts:10 | `response.ok` holds exactly for statuses of the 2xx class, those whose hundreds digit is 2 |
| `Feed.ThumbnailUrl` | src/app/api/blog/route.ts:27-35 | the thumbnail URL never contains `?` and is a prefix of the source field. It equals the source when that has no `?` and stops right before the first `?` otherwise. It is empty when the field is absent or empty |
| `Feed.PostId` | src/app/api/blog/route.ts:49 | the id contains no `/` and is a suffix of the link, right after its last `/`. It is the whole link when there is no `/` |
| `Feed.StripTags` | src/app/api/blog/route.ts:41 | tag stripping never lengthens the text |
| `Feed.StripFrom` | src/app/api/blog/route.ts:41 | the scan from any position yields at most as many characters as remain |
| `Feed.StripFromNoClose` | src/app/api/blog/route.ts:41 | stripping text that has no `>` yields text with no `>` |
| `Feed.StripFromNoTag` | src/app/api/blog/route.ts:41 | after stripping, no `<` is followed anywhere later by a `>` |
| `Feed.StripTagsNoTag` | src/app/api/blog/route.ts:41 | the stripped description contains no `<…>` tag |
| `FeedProps.StripFromKeepsTagFree` | src/app/api/blog/route.ts:41 | on text with no tag, scanning from any position returns the rest of the text unchanged, including a `<` that no `>` follows |
| `FeedProps.StripTagsKeepsTagFree` | src/app/api/blog/route.ts:41 | stripping text that has no tag changes nothing |
| `FeedProps.StripTagsIdempotent` | src/app/api/blog/route.ts:41 | stripping twice equals stripping once |
| `FeedProps.StripFromPlain` | src/app/api/blog/route.ts:41 | characters before the first `<` are kept in order |
| `FeedProps.FindFromShift` | src/app/api/blog/route.ts:41 | the look-ahead for `>` finds the same character whether it runs on the whole text or on a suffix of it |
| `FeedProps.StripFromShift` | src/app/api/blog/route.ts:41 | the scan from a position depends only on the text from any earlier position on: it gives the same result on the suffix |
| `FeedProps.StripFromIsStripTags` | src/app/api/blog/route.ts:41 | resuming the scan at a position strips the rest of the text exactly as stripping that rest on its own would |
| `FeedProps.StripTagsRemovesTag` | src/app/api/blog/route.ts:41 | a `<` with a later `>` is removed with everything up to the first such `>`. The text before it is kept, and the text after that `>` is stripped as if it stood alone, so the rule applies again to every later tag |
| `FeedProps.NextClose` | src/app/api/blog/route.ts:41 | the look-ahead loop finds the first `>` after a `<`, as `FindFrom` defines it |
| `FeedProps.StripTagsScan` | src/app/api/blog/route.ts:41 | a left-to-right loop over the text, as a global regex replace runs, computes exactly the recursive definition and leaves no tag |
| `Feed.DropLeadingWs` | src/app/api/blog/route.ts:43 | greedy `\s+`: what is removed is all whitespace, and what remains does not start with whitespace |
| `FeedProps.HasIntroMatches` | src/app/api/blog/route.ts:43 | the test `HasIntro` (the word, then one whitespace character) holds exactly when `^はじめに\s+` matches some prefix of the text |
| `Feed.DropIntro` | src/app/api/blog/route.ts:43 | text that does not start with `はじめに` plus a whitespace character is returned unchanged. Otherwise the result is a strictly shorter suffix, everything between the word and the result is whitespace, and the result does not start with whitespace |
| `FeedProps.DropLeadingWsInverse` | src/app/api/blog/route.ts:43 | a whitespace run placed before text that does not start with whitespace is removed exactly |
| `FeedProps.DropIntroInverse` | src/app/api/blog/route.ts:43 | the word, any non-empty whitespace run, then text not starting with whitespace, reduces to exactly that text |
| `FeedProps.DropIntroNeedsWhitespace` | src/app/api/blog/route.ts:43 | the word alone, or the word followed directly by a non-whitespace character, is kept |
| `Feed.Truncate` | src/app/api/blog/route.ts:45 | the result has length min(length, 100) + 3 and ends with `...`. The part before the marker is a prefix of the input. Text of at most 100 characters is kept whole, with `...` still appended |
| `Feed.Excerpt` | src/app/api/blog/route.ts:37-46 | a missing or empty description gives the empty excerpt. Any other gives the description with its tags stripped, then the boilerplate opening dropped, then cut to 100 characters with `...` appended: between 3 and 103 characters. No excerpt contains a tag |
| `FeedProps.ExcerptOfFalsy` | src/app/api/blog/route.ts:38-39 | an absent or empty description gives `""`, with no marker |
| `FeedProps.ExcerptOfMarkupOnly` | src/app/api/blog/route.ts:39-45 | a description that is a single tag gives `...` alone: the marker is added even when nothing is left |
| `Feed.NoTagSlice` | src/app/api/blog/route.ts:43-45 | cutting a slice out of tag-free text keeps it tag-free, so the boilerplate step and truncation cannot create a tag |
| `Feed.NoTagAppendTagFree` | src/app/api/blog/route.ts:45 | appending text without `<` and `>` (the marker) keeps it tag-free |
| `Feed.Normalize` | src/app/api/blog/route.ts:48-55 | `url`, `title` and `publishedAt` are copied unchanged from the item. The id is the last `/` segment of the link (`PostId`), so it has no `/` and is a suffix of the url. The excerpt and thumbnail are those of the item's description and thumbnail field, and the thumbnail has no `?` |
| `Feed.AllLinked` | src/app/api/blog/route.ts:49 | the items can all be normalised exactly when none of them lacks a link |
| `Feed.NormalizeAll` | src/app/api/blog/route.ts:25 | the map keeps length and order: entry `i` is built from item `i` |
| `Feed.Page` | src/app/api/blog/route.ts:25 | `slice(0, 3)` is a prefix of the items of length min(3, count) |
| `Feed.Get` | src/app/api/blog/route.ts:10-64 | the status is 200 exactly when the upstream status is 2xx, the item list exists and each of the first three items has a link. Otherwise it is 500 with the fixed error body. On 200 there are min(3, count) entries and entry `i` is the normalised item `i` |
| `FeedProps.GetIgnoresTail` | src/app/api/blog/route.ts:25 | items after the third never change the response, so nothing is sorted or filtered |
| `FeedProps.GetUpstreamFailure` | src/app/api/blog/route.ts:10-11 | a non-2xx upstream status gives 500 with the fixed error body, whatever was parsed |
| `FeedProps.GetMissingLink` | src/app/api/blog/route.ts:49 | a linkless item among the first three fails the whole response. One further down does not matter |
| `Contact.Valid` | src/app/api/contact/route.ts:11 | a submission is rejected exactly when one of its three fields is missing or the empty string |
| `Contact.FieldsInOrderOfLayout` | src/app/api/contact/route.ts:33-51 | a text laid out as fixed pieces around three values contains the values verbatim, in order, without overlap |
| `Contact.Subject` | src/app/api/contact/route.ts:32 | the subject starts with the fixed prefix, ends with the fixed suffix, and carries the name right after the prefix, with nothing else in between: its length is the three parts' lengths added up |
| `Contact.NameOfSubject` | src/app/api/contact/route.ts:32 | a name read back from a subject is exactly as long as the subject minus its fixed frame |
| `ContactProps.SubjectRoundTrip` | src/app/api/contact/route.ts:32 | the name can be read back from the subject built from it |
| `ContactProps.SubjectFromName` | src/app/api/contact/route.ts:32 | every subject from which a name reads back is the subject built from that name |
| `ContactProps.SubjectInjective` | src/app/api/contact/route.ts:32 | different names give different subjects |
| `Contact.TextBody` | src/app/api/contact/route.ts:33-39 | the plain-text body contains name, email and message, each right after its label, in that order |
| `Contact.HtmlBody` | src/app/api/contact/route.ts:40-51 | the HTML body contains the same three values verbatim, with no escaping, each after its label and closed by `</p>`, in that order |
| `Contact.ComposeMail` | src/app/api/contact/route.ts:29-52 | sender and recipient are the owner's fixed address for every input. The name reads back from the subject. Both bodies carry the three values in order |
| `Contact.HandlePost` | src/app/api/contact/route.ts:6-67 | an unreadable body gives 500 with no send. A missing or empty field gives 400 with the fixed text and no send. A valid submission hands off exactly the composed mail, then gives 200 with the success text when the send succeeds and 500 with the failure text when it fails. Status 200 occurs exactly when a mail was handed off and the send succeeded |
| `ContactProps.NoTrimming` | src/app/api/contact/route.ts:11 | fields that are only whitespace pass validation, and their mail is handed off |
| `ContactProps.EmptyFieldRejected` | src/app/api/contact/route.ts:11-16 | an empty name or message, or a missing email, gives 400 and no send, whatever the transport would answer |
| `ContactProps.FailedSendNeverAcknowledged` | src/app/api/contact/route.ts:55-65 | with a failing transport, no request ever gets 200 or a success body |
| `ContactProps.TransportConsultedOnlyWhenSending` | src/app/api/contact/route.ts:11-16 | when nothing is handed off, the transport's answer does not affect the outcome |
| `ContactProps.AcceptsExample` | src/app/api/contact/route.ts:29-60 | the submission Taro / a@b.com / hello with a working transport gives 200. The mail goes to the owner with "Taro" in the subject |

## Left out

- Fetching the feed (`fetch` with its one-hour revalidation hint) and XML
  parsing with `fast-xml-parser`, including the `isArray` setting that keeps
  `item` a list. Both are library I/O. The parsed item list is an input, and a
  single item is simply a one-element sequence.
- Non-string values from the XML parser (numeric text it converts to numbers,
  elements carrying attributes that become objects). Every item field is
  modelled as an optional string.
- Non-string JSON values in the contact body (numbers, booleans, `null`,
  objects). Fields are optional strings, so "falsy" means absent or empty.
  `0`, `false` and `null` are not represented.
- The `nodemailer` transport, its Gmail configuration and the password from
  the environment. They are foreign I/O; the transport's answer is the
  `SendResult` input.
- `console.error` logging on both error paths (a side effect with no effect
  on the response), and `export const dynamic = 'force-static'` (a framework
  rendering hint).
- JavaScript strings are UTF-16: `substring(0, 100)` counts code units and
  the regular expressions match code units. The model counts Dafny `char`s
  (Unicode scalar values). The two agree for text in the Basic Multilingual
  Plane, which includes the kana and kanji in everyday use.
- Feed.Truncate: counts characters rather than UTF-16 code units, so a
  description with characters outside the Basic Multilingual Plane may be cut
  at a different place than the route handler cuts it.
- The JSON serialisation of responses. Bodies are datatypes, and an absent
  `title` or `pubDate` is `None` where the route handler leaves the key out
  of the JSON object.
- The React components, the `formatDate` display helper, the `mailto:` link
  builder and the Next.js configuration files. They are presentation and
  build settings, not server logic.
