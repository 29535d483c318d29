# sat-browse: the decision logic of the Firebase functions

sat-browse turns web pages into plain-text email. A user mails a list of
URLs to a CloudMailin address. The `cloudMailin` webhook checks the call's
key, looks the sender up among the known `emails`, and creates one
`requests` document per URL in the message body. Creating a document fires
`newRequest`. That function fetches the page, converts it to text, mails it
back with the page title as subject, and writes the outcome to the document.
When anything goes wrong it sends an "Oops..." notice instead.

This project models the pure decisions inside `functions/index.js`. Every
collaborator's answer is a parameter:

- whether `new URL(s)` accepts a string is `valid: string -> bool`;
- whether the sender's `emails` document exists is `isKnown: string -> bool`;
- how the `got` call settled is `Fetch.GotResult`, either a response
  (status, body, final URL) or a thrown message;
- `htmlToText.fromString` is `toText: string -> string`;
- whether each `sendEmail` call threw is `Request.SendResult`;
- `new Date()` is an abstract `Store.Time`; the intake loop reads the clock once per record, given as `clock: nat -> Time` (the k-th reading).

Modules, in dependency order:

- `Wrappers`: `Option` (null/undefined) and `Field` (a key that is absent or set in an object literal).
- `JsStrings`: JavaScript truthiness of strings, `trim`, and `split("\r\n")`.
  Split has its inverse `JoinCrlf` and a proof that each undoes the other.
- `Urls`: `findURLs`, as a function with a filter specification and as the
  source's loop.
- `Store`: the documents, with `RequestDoc` as the processor reads it.
- `Intake`: `validateCloudMailin` and `handleCloudMailin`. The result, a `Reply`, is the
  HTTP status, the `emails` lookup made, and the batch committed.
- `Fetch`: the settled `got` call and `urlToHtml`.
- `Title`: `htmlToTitle`. This covers the complete regular expression
  `/<title(?: .*)?>(.*?)<\/title>/i`, including the optional attribute group.
  `MatchSpan` says declaratively which spans the pattern can match.
  `IsFirstMatch` says which span the backtracking engine reports: the leftmost
  start, then the longest header (the greedy ` .*`, tried before the bare `>`),
  then the shortest content (the lazy `.*?`). The executable search
  `FirstMatch` is proved to return exactly that span.
- `Request`: `handleRequest`. The result is the messages it tries to send, in
  order, and the single `updates` object it writes.
- `Pipeline`: the two functions together.

`urlToHtml` is modelled as written, but nothing in the file calls it.
`handleRequest` calls `got` itself with `throwHttpErrors: true`. So a non-2xx
answer reaches the processor as a thrown error, that is, as
`GotResult.Rejected`.

## Behaviour worth knowing

The model follows the code in each of these cases:

- Nothing checks `completed` before processing. A redelivered trigger fetches,
  mails and overwrites the document again. `Request.NoCompletedGuard` states
  this.
- A page whose text comes out empty fails, but its update has no `error`
  field. The notice then reports the error as `undefined`.
  `Request.EmptyTextFailsSilently` states this.
- On success `title` is written even when the page has no title, and then it
  is `null`.
- A failure of the registry lookup or of the batch commit is not caught. The
  webhook call fails instead of dropping the message. This path is outside the
  model (see below).

## Model

| member | source | states |
|---|---|---|
| `JsStrings.TrimBounds` | functions/index.js:22 | `trim` cuts a prefix and a suffix made only of whitespace or line terminators, and what it keeps starts and ends with some other character |
| `JsStrings.Trim` | functions/index.js:22 | a trimmed line has no whitespace at either end; it is empty exactly when the line was all whitespace; a line with no whitespace at its ends is left unchanged |
| `JsStrings.TrimIdempotent` | functions/index.js:22 | trimming twice is the same as trimming once |
| `JsStrings.SplitCrlf` | functions/index.js:21 | `split("\r\n")` gives at least one part; the parts joined with "\r\n" give back the body; no part contains "\r\n" |
| `JsStrings.SplitJoin` | functions/index.js:21 | conversely, splitting the join of any non-empty list of parts free of "\r\n" gives back exactly those parts, so the split is the only decomposition of this kind |
| `Urls.KeepValid` | functions/index.js:23-31 | at most as many lines come out as went in, every line kept is one the URL parser accepts, and nothing is added: each line occurs in the output no more often than in the input |
| `Urls.KeepValidIsSubsequence` | functions/index.js:21-32 | the kept lines appear in the same order as in the input |
| `Urls.KeepValidCounts` | functions/index.js:21-32 | an accepted line is kept as many times as it occurs; a rejected line is never kept |
| `Urls.TrimmedLines` | functions/index.js:21-22 | the candidates are the "\r\n"-separated lines, each one trimmed, one for each line |
| `Urls.FindUrls` | functions/index.js:16-36 | a missing or empty body gives no URLs; every URL returned is accepted by the parser |
| `Urls.FindUrlsFilters` | functions/index.js:16-36 | for a non-empty body, the URLs are the trimmed lines in line order, each valid line kept as often as it occurs, and invalid lines dropped |
| `Urls.CollectUrls` | functions/index.js:16-36 | the line-by-line loop with `push` computes exactly `FindUrls` |
| `Urls.ExampleBody` | functions/index.js:16-36 | a body of "https://a.example", "not a url" and "https://b.example" on three lines gives the two URLs, in order |
| `Intake.ValidateCloudMailin` | functions/index.js:39-50 | with no configured key, or an empty one, every call passes; with a key, exactly the calls whose `key` query parameter equals it pass |
| `Intake.RecordsFor` | functions/index.js:76-79 | one record for each URL, in the same order, each with that URL, the sender's address and the clock reading taken on that pass of the loop |
| `Intake.HandleCloudMailin` | functions/index.js:53-87 | 403 exactly when validation fails, with no lookup and no write; otherwise 200; a non-empty sender is looked up; a batch is committed exactly for a known sender, with one record per extracted URL in order, each stamped with its own clock reading |
| `Intake.UnknownSenderCreatesNothing` | functions/index.js:60-84 | a missing, empty or unknown sender gets 200 and no batch |
| `Intake.SingleUrlMessage` | functions/index.js:73-84 | a known sender whose body is one clean URL line gets exactly one record for that URL, with the sender's address and the first clock reading |
| `Intake.ExampleSingleUrl` | functions/index.js:73-84 | the same for the body "https://x.example" |
| `Fetch.UrlToHtml` | functions/index.js:90-107 | the body is returned exactly when the call returned a response with status 200; any other status, or a throw, gives null |
| `Title.CloseFrom` | functions/index.js:115 | the lazy `(.*?)</title>` finds the first closing tag (any case) that starts on the same line, or reports that none does |
| `Title.GroupFrom` | functions/index.js:115 | backtracking the greedy ` .*` from the end of the line downward finds the longest attribute header that leads to a closing tag, or proves there is none |
| `Title.MatchAt` | functions/index.js:115 | at one start position: the longest header that succeeds (the attribute form before the bare `>`) with its shortest content, or no match at all |
| `Title.FirstMatchFrom` | functions/index.js:115 | scanning from a position with no match before it finds the engine's match, or proves the pattern matches nowhere |
| `Title.FirstMatch` | functions/index.js:115 | `match` reports the leftmost, longest-header, shortest-content span, or none when the pattern cannot match |
| `Title.HtmlToTitle` | functions/index.js:110-122 | null for missing or empty html and when the pattern matches nowhere; otherwise the text captured by the engine's match |
| `Title.FirstMatchUnique` | functions/index.js:115 | the engine's choice among the matching spans is unique |
| `Title.TitleOfFirstMatch` | functions/index.js:110-122 | whenever a span is the engine's match, its content is the title returned |
| `Title.TitleShape` | functions/index.js:110-122 | a returned title contains no line terminator and no `</title>` in any case |
| `Title.HelloTitle` | functions/index.js:110-122 | `<title>Hello</title>` is titled `Hello` |
| `Title.AttributeTitle` | functions/index.js:115 | `<title a>x>y</title>` is titled `y`: the greedy attribute group runs to the last `>` that still leaves a closing tag |
| `Request.TryDeliver` | functions/index.js:153-178 | the digest is attempted exactly when the fetch returned a non-empty body whose text is non-empty; success means the digest also went out; the title is set only on success, the error only with the message of what threw; the digest's subject and text as sent |
| `Request.HandleRequest` | functions/index.js:146-205 | a document without a URL gets no mail and no update; any other gets exactly one update with `completed`; the notice is among the messages exactly when there was no success, and then it is the last one; one or two messages, as the case requires |
| `Request.SuccessCondition` | functions/index.js:153-174 | `success` is true exactly when the fetch did not throw, the body and its text are non-empty, and the digest send did not throw |
| `Request.UpdateFields` | functions/index.js:150-177 | on success, the title is `htmlToTitle` of the page (possibly null) and there is no error; on failure, there is no title, and the error is the message of the fetch or send that threw, or is absent when only the text was empty |
| `Request.DigestContents` | functions/index.js:164-170 | the digest goes to the document's address; its subject is the title, or the final URL when the title is null or empty; its text is the final URL, "\r\n\r\n\r\n", then the text |
| `Request.NoticeFailureIsSwallowed` | functions/index.js:180-201 | whether the notice send throws changes neither the messages nor the update written |
| `Request.NoCompletedGuard` | functions/index.js:146-150 | a document that is already `completed` is processed exactly like a fresh one |
| `Request.EmptyTextFailsSilently` | functions/index.js:159-192 | a fetched page with empty text gives `success` false, no title, no error, and one notice whose error reads `undefined` |
| `Pipeline.CreatedRecordsAreFinalised` | functions/index.js:146-201 | each record the webhook creates, processed, gets exactly one update, and every message goes to the sender; this relies only on the parser rejecting the empty string |

## Left out

- Firestore I/O: the `emails` lookup, the batch commit and `snapshot.ref.update`. The lookup becomes the `isKnown` parameter; the batch and the update are returned as values. A lookup or commit that rejects is not caught in the source and is not modelled.
- `got` network calls: only their settlement is modelled. Redirects, and got's rule that a non-2xx answer rejects under `throwHttpErrors: true`, are the library's business.
- `html-to-text`: an uninterpreted total function. A throw from it would be recorded like any other throw in the `try` block, and the model does not include that case.
- `sendEmail`, the nodemailer transport and its lazily created global client: only "threw or not" is modelled.
- `new URL` parsing (the WHATWG URL Standard): the `valid` parameter.
- `new Date()`: an abstract clock value, one reading per record created. Console logging and the `exports.*` registrations are left out.
- The notice's BCC address is a hard-coded literal in the source. Here it is the configuration field `MailConfig.noticeBcc`.
- Intake.ValidateCloudMailin: `req.query.key` is modelled as an optional string. A repeated `key` parameter arrives as an array, which never strictly equals the configured string, so it behaves like a wrong key.
- Intake.HandleCloudMailin: a body without `envelope` throws a TypeError in the source. A sender address that is not a valid Firestore document id makes the lookup throw. Neither case is modelled.
- Request.UpdateFields: a thrown value is assumed to be an Error with a string message. A thrown non-Error would leave `e.message` undefined, and that case is not modelled.
- At-least-once redelivery and concurrency between invocations: the code has no claim step to model. `Request.NoCompletedGuard` records the consequence.
