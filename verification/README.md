# A model of the platform's algorithms and protocols, with proofs

A multi-tenant code-intelligence back end contains, between its drivers and its services, a number of
small algorithms and protocols that other parts rely on. This project models them in Dafny and proves
what they are relied on for. `dafny verify dfyconfig.toml` checks everything.

## What is modelled

**Tenant labels in Cypher** (`Detector`, `DetectorTheorems`, `Injector`, `InjectorTheorems`, `Provenance`,
`ReadOnly`, `CodeView`, `Parentheses`, `LabelGaps`, `Refusals`, `Interiors`, `CharTables`, `Rewriter`). A
query is cut into tokens; rendering them with a label is the rewritten query. The rewriter's loop, with its
sub-scanners, computes that. The write check is a second scanner of the same language, specified as an
automaton. The theorems join the two: rewriting never changes what the check answers, and deleting the
labels gives the query back. `CodeView` is a third, simpler reader; by it, `Parentheses` says of every
parenthesis of a query whether it gets the label, `LabelGaps` shows read-only queries whose patterns do not,
and `Refusals` says which queries are refused. `Interiors` gives the inside of patterns and brackets as a
grammar. A character stands for one byte.

**Redaction** (`Percent`, `Utf8`, `Utf8Scalars`, `Redact`, `RedactTheorems`, `RedactExtents`, `RedactExact`,
`Redactor`, `RedactBorrowed`, `RedactReturned`, `RedactTwice`). A percent decoder and the rewriting passes
behind it. One lemma, `Traced`, says where everything in the output of a pass comes from; that no pass
brings back what another removed follows. `RedactExtents` says in letters how much each pass takes away. The
passes read the decoded text; the fast path hands back the undecoded one. `RedactReturned` says when that is
clean, and `RedactTwice` when a second call would change it. Slices are checked to fall on character
boundaries.

**Server-sent events** (`Ring`, `SseStream`, `SseProtocol`, `SseTheorems`, `SseReconnect`). The bounded,
expiring replay buffer as a class; publishers (push, later send) and subscribers (subscribe, later read the
buffer) as interleaved steps; the stream of one client as a class whose future is a sequence. The last
module follows a client over two visits.

**Installation tokens** (`TokenCache`, `TokenTheorems`). Any number of tasks check, queue for a lock, check
again, mint and insert, while entries are evicted and the clock moves on.

**Calendar and timestamps** (`Calendar`, `Decimal`, `Timestamp`, `TimestampTheorems`). The division-only
date algorithm against a calendar counted year by year; the printer against a reader and against the grammar
of section 5.6 of RFC 3339.

**Blob store** (`BlobPaths`, `BlobStore`, `BlobRuns`, `BlobCrash`, `BlobFiles`, `BlobReports`,
`BlobAnswers`). How names become paths, and which names stay with their key; the store as a class over a map
from paths to contents; the same operations as file-system steps of many tasks with a crash possible after
any of them, first over keys and then over files, which follow the keys when the names are plain; when what
is answered about ownership is right. SHA-256 is an arbitrary function that prints 64 hexadecimal digits.

**Feature resolution** (`Resolver`, `ResolverExact`). The worklist against the least closed set, and that
set from the entries of the manifest.

**Kafka** (`Kafka`, `KafkaTheorems`, `KafkaRefusals`, `Watchdog`). Envelopes as headers and payload, what is
read and refused of arbitrary headers, the retry chain, and the loop that recreates a stalled consumer. The
text form of a UUID and the protobuf codec are parameters, assumed to be inverse pairs.

**Rank fusion** (`Rrf`, `RrfHits`). Over real numbers.

Clocks, minters, brokers, databases and factories are parameters whose answers are arbitrary.

## Where code and documentation part

- `subscribe_raw` answers a last id that the buffer does not know with an empty replay; the comment on
  `replay_after` (`crates/rb-sse/src/broadcaster.rs:46-47`) speaks of a `stream-reset`. The model follows
  the code; `SseTheorems.UnknownIdMissesExactly` says what such a client misses.
- `resolve` is documented to accept a requested `default` that the manifest lacks
  (`crates/rb-feature-resolver/src/resolver.rs:26-27`); the code reports it as unknown, and so does the
  model. `CyclicDependency` is about the number of features, not about cycles: see
  `Resolver.SmallManifestsResolve`.
- The token cache is documented to treat tokens with less than the margin as expired
  (`crates/rb-github/src/token_cache.rs:29`); at exactly the margin the code does so too.
- The retry schedule lists ten minutes for the third attempt (`crates/rb-kafka/src/retry.rs:6`), which
  the default policy of three attempts never reaches: see `KafkaTheorems.DefaultPolicy`.
- A get is documented to report a mismatch when the content belongs to another tenant
  (`crates/rb-blob/src/store.rs:25-27`). After a crash a marker may stand alone, and then the report is
  wrong: `BlobReports.StaleMarkerMisleads`, and `BlobReports.ReportIsRightExactly` for when it is right.
- `redact_with_token` is documented to return the decoded and redacted form when decoding was needed
  (`crates/rb-secrets/src/redact.rs:43-45`), but a text whose decoded form has nothing to redact comes back
  undecoded, and a `%HH` that swallows the first letter of a pattern hides it:
  `RedactReturned.SwallowedComesBack`, and `RedactReturned.ReturnedIsCleanExactly` for when it is clean.
- Nor is it idempotent as a whole, as the passes are: `RedactTwice.TwiceEncodedJwt`.
- `inject_tenant_label` is documented to label every node pattern in a path clause, behind its variable
  (`crates/rb-storage-neo4j/src/injector.rs:218-222`). A clause ends at any word that reads like a path-end
  keyword, brackets are not searched, and the variable is not found behind a backtick or a comment:
  `LabelGaps`, and `Parentheses.LabelledExactly` and `LabelGaps.LabelFollowsExactly` for when it holds.
- A blob reference is documented as a tenant and a digest (`crates/rb-blob/src/blob_ref.rs:47-49`), but only
  a put looks at the digest. Gets and deletes follow any name: `BlobRuns.SiblingIsReached`, `MarkerIsReached` and
  `TempIsReached`, and `BlobPaths.TouchesOwnOnlyExactly` for the names that stay with their key.
- A get answers not found when no tenant has the content (`crates/rb-blob/src/store.rs:25-27`), but it looks
  twice, and a put and a delete may run in between: `BlobAnswers.NotFoundMisleads`.
- `publish` pushes and then sends without a lock around both (`crates/rb-sse/src/broadcaster.rs:117-133`). A
  send that overtakes another can cost a returning client an event: `SseReconnect.OvertakenIsMissed`.

## Model

| member | source | states |
|---|---|---|
| `Detector.HasWriteOperators` | crates/rb-storage-neo4j/src/write_check.rs:7-103 | the index-based scanner, with its jumps over words and two-character tokens, answers exactly what an automaton reading one character at a time answers |
| `DetectorTheorems.HasWriteExactly` | crates/rb-storage-neo4j/src/write_check.rs:7-124 | the check answers yes if and only if, outside strings, quoted names and comments, one of SET, MERGE, CREATE, DELETE, DETACH and REMOVE stands as a word of its own, in any case |
| `DetectorTheorems.WriteKeywords` | crates/rb-storage-neo4j/src/write_check.rs:112-124 | the test by length and letters picks exactly those six words |
| `DetectorTheorems.WritingIsSeen` | crates/rb-storage-neo4j/src/write_check.rs:7-103 | behind any text that is read to code, such a word is seen if the text ends there or no identifier character follows |
| `Rewriter.ScanBracket` | crates/rb-storage-neo4j/src/injector.rs:62-119 | collects exactly the characters up to the bracket that matches, quotes and nesting counted, or the whole rest |
| `Rewriter.CollectNodePattern` | crates/rb-storage-neo4j/src/injector.rs:122-192 | collects exactly the interior up to the closing parenthesis, or reports that there is none |
| `Rewriter.WordArm` | crates/rb-storage-neo4j/src/injector.rs:370-393 | a whole word is copied, and opens or ends a path clause when it is such a keyword |
| `Rewriter.NodeArm` | crates/rb-storage-neo4j/src/injector.rs:396-433 | a node pattern in a path clause, from its parenthesis to the label |
| `Rewriter.NormalArm` | crates/rb-storage-neo4j/src/injector.rs:313-442 | what each character starts outside quotes and comments, the semicolon being an error |
| `Rewriter.InjectTenantLabel` | crates/rb-storage-neo4j/src/injector.rs:233-445 | the whole loop over index, output, state, clause and bound variables computes the token-by-token rewriting, errors included |
| `Refusals.RefusedExactly` | crates/rb-storage-neo4j/src/injector.rs:233-445 | every query, by a reader that steps over brackets and patterns: refused for a second statement if and only if a `;` stands in code outside them and before the first unclosed one; else for an unclosed pattern if and only if there is one; else rewritten |
| `Refusals.SemicolonExactly` | crates/rb-storage-neo4j/src/injector.rs:352-355 | with plain interiors, what stands in code there is what the plain reader says |
| `Refusals.BehindWord` | crates/rb-storage-neo4j/src/injector.rs:24-57 | right behind a word a parenthesis opens a pattern if and only if the word is MATCH, CREATE or MERGE, in any case |
| `Refusals.BehindSymbol` | crates/rb-storage-neo4j/src/injector.rs:24-57 | behind a word and a symbol, if and only if the word is one of these, or a clause was open and the word is none of the nineteen that end one |
| `Interiors.NodeLenExactly` | crates/rb-storage-neo4j/src/injector.rs:122-192 | a pattern ends at a `)` if and only if characters and quoted strings stand in front of it with all braces matched, and no other such parenthesis outside braces |
| `Interiors.BracketLenExactly` | crates/rb-storage-neo4j/src/injector.rs:62-119 | a bracket ends at a `]` if and only if characters and quoted strings stand in front of it with all nested brackets matched |
| `InjectorTheorems.ScanShape` | crates/rb-storage-neo4j/src/injector.rs:252-444 | the tokens of a query put back together are the query; only the last can be an unclosed bracket |
| `InjectorTheorems.SpliceHarmless` | crates/rb-storage-neo4j/src/injector.rs:204-216 | splicing a label into a node pattern leaves the state of the write check as it was after the pattern, wherever the check stood before it |
| `InjectorTheorems.WriteAnswerKept` | crates/rb-storage-neo4j/src/injector.rs:233-445 | for every query and every identifier label that is not a write word, the write check answers the same before and after the rewriting |
| `InjectorTheorems.WriteAnswerKeptExactly` | crates/rb-storage-neo4j/src/write_check.rs:112-124 | a label keeps the write answer of all queries if and only if it is not itself a write keyword (leading digits aside) |
| `InjectorTheorems.Erasure` | crates/rb-storage-neo4j/src/injector.rs:204-216 | deleting the spliced `:label` pieces gives the query back byte for byte (and the missing `]`); each patched pattern makes the text longer by a colon and the label |
| `Provenance.ScanAccounts` | crates/rb-storage-neo4j/src/injector.rs:395-433 | a pattern is left without a label if and only if it is a bare reference to a variable that an earlier MATCH pattern declared |
| `Provenance.Rescan` | crates/rb-storage-neo4j/src/injector.rs:233-445 | scanning the output finds the patterns of the query, each with its label, and nothing else |
| `Provenance.OutputProvenance` | crates/rb-storage-neo4j/src/injector.rs:395-433 | in the output each node pattern of a path clause carries `:label` behind the leading name that the rewriter reads (white space aside), if and only if it is no bare MERGE/CREATE reference to a variable declared before; that declaration carries the label |
| `Provenance.TakenAreLabelledExactly` | crates/rb-storage-neo4j/src/injector.rs:395-433 | the output of a successful run carries the label on every node pattern of a path clause if and only if no such pattern of the query is a bare MERGE/CREATE reference to a variable that an earlier MATCH pattern of the query declares |
| `CodeView.TokenAligned` | crates/rb-storage-neo4j/src/injector.rs:252-442 | a reader that knows only words, strings, quoted names and comments stands where the rewriter stands after every token with a plain interior |
| `Parentheses.ParenthesesAreAccounted` | crates/rb-storage-neo4j/src/injector.rs:368-433 | a `(` of a query with plain interiors is taken for a pattern if and only if by that reader it stands in code and is no call, no bracket or other pattern is around it, and the last clause word before it opens a path clause; if it is left alone though no call, no clause is open there |
| `Parentheses.LabelledExactly` | crates/rb-storage-neo4j/src/injector.rs:368-433 | such a parenthesis has the label behind it in the output if and only if it is taken and is no bare reference to a variable bound by an earlier MATCH pattern, or had the label behind it before |
| `Parentheses.FullyLabelledExactly` | crates/rb-storage-neo4j/src/injector.rs:233-445 | so all of them have it if and only if that is so of each |
| `Parentheses.ReadOnlyIsLabelledExactly` | crates/rb-storage-neo4j/src/injector.rs:358-393 | in a query that the write check calls read-only, it has the label if and only if a path clause is open there and no bracket or pattern is around it, or it had the label before |
| `ReadOnly.ReadOnlyHasNoReference` | crates/rb-storage-neo4j/src/write_check.rs:7-103 | a query with plain interiors that the write check calls read-only has no bare reference: every pattern that is taken is labelled |
| `LabelGaps.EndIsGap` | crates/rb-storage-neo4j/src/injector.rs:378-384 | a read-only query whose pattern is not labelled: `MATCH end=(a)`, where a name that reads like a path-end word closes the clause; the query comes out as it was |
| `LabelGaps.WhereIsGap` | crates/rb-storage-neo4j/src/injector.rs:378-384 | another: the second pattern of `MATCH(n)WHERE(a)`, behind a word that ends the clause |
| `LabelGaps.ListIsGap` | crates/rb-storage-neo4j/src/injector.rs:358-365 | another: `RETURN[(x)]`, where the bracket is copied whole |
| `LabelGaps.LabelFollowsExactly` | crates/rb-storage-neo4j/src/injector.rs:204-216 | for every interior with a variable: the label stands right behind the variable, which keeps its name, if and only if, white space aside, the interior begins neither with a backtick nor with a comment; else the label comes first |
| `ReadOnly.MixedIsNotFullyLabelled` | crates/rb-storage-neo4j/src/injector.rs:62-119 | read-only alone is not enough: a query with a comment opener inside a bracket is called read-only and keeps an unlabelled pattern |
| `LabelGaps.QuotedNameIsMissed` | crates/rb-storage-neo4j/src/injector.rs:204-216 | a quoted name gets the label in front of it |
| `CharTables.CaseTable` | crates/rb-storage-neo4j/src/write_check.rs:112-124 | ASCII case: each letter has its other case at the same place of the other alphabet, and nothing else changes |
| `CharTables.NameTable` | crates/rb-storage-neo4j/src/injector.rs:204-216 | below 128, a variable is made of the letters of both alphabets, the ten digits and the underscore |
| `CharTables.LatinTable` | crates/rb-storage-neo4j/src/injector.rs:204-216 | from 128 to 255, of all characters but 57 that are listed |
| `CharTables.WhiteTable` | crates/rb-storage-neo4j/src/injector.rs:204-216 | and what is trimmed in front of it is exactly eight characters |
| `Percent.DecodeFinds` | crates/rb-secrets/src/redact.rs:73-100 | the decoder shortens a text if and only if some ASCII escape occurs in it, and otherwise leaves it alone |
| `Percent.DecodeUtf8` | crates/rb-secrets/src/redact.rs:93-96 | decoding keeps well-formed UTF-8 (section 4 of RFC 3629) well-formed, which the unchecked conversion relies on |
| `Utf8Scalars.Utf8Exactly` | crates/rb-secrets/src/redact.rs:93-96 | the well-formed texts are exactly the encodings of sequences of scalar values by the table of section 3 of RFC 3629 |
| `Percent.EscapeIs` | crates/rb-secrets/src/redact.rs:73-109 | an escape stands for an ASCII character if and only if its two digits, of either case, are those of the character |
| `Percent.EscapedDecodes` | crates/rb-secrets/src/redact.rs:73-100 | a text escaped throughout decodes to itself, wherever it stands |
| `Percent.PercentDecodeAscii` | crates/rb-secrets/src/redact.rs:73-100 | the loop equals the left-to-right decoder, and answers nothing exactly when nothing decodes |
| `RedactTheorems.Traced` | crates/rb-secrets/src/redact.rs:120-232 | whatever the output of a pass holds without an angle bracket was in its input or is part of the marker |
| `RedactTheorems.JwtRemoved` | crates/rb-secrets/src/redact.rs:129-150 | after the JWT pass no `eyJ` starts a three-segment span |
| `RedactTheorems.NoJwtKept` | crates/rb-secrets/src/redact.rs:129-150 | no pass creates such a span |
| `RedactTheorems.BearersRemoved` | crates/rb-secrets/src/redact.rs:180-204 | after the bearer pass every `bearer `, in any case, is followed at once by the marker |
| `RedactTheorems.BearersKept` | crates/rb-secrets/src/redact.rs:180-204 | the later passes keep it so |
| `RedactTheorems.PatternRemoved` | crates/rb-secrets/src/redact.rs:207-229 | a literal or `rb_live_` pass leaves no occurrence of its pattern |
| `RedactExtents.KeyExtent` | crates/rb-secrets/src/redact.rs:208-222 | the key pass replaces `rb_live_` with every hexadecimal digit behind it, up to the first other character, and carries on there |
| `RedactExtents.JwtExtent` | crates/rb-secrets/src/redact.rs:129-169 | the JWT pass replaces header, payload and signature, up to the first character that is no letter, digit or one of `-_=` |
| `RedactExtents.BearerExtent` | crates/rb-secrets/src/redact.rs:180-204 | the bearer pass keeps the word as it is written, and replaces everything up to the next white space or the end |
| `RedactExtents.LiteralExtent` | crates/rb-secrets/src/redact.rs:224-232 | a literal pass replaces the first occurrence, whole, and carries on behind it |
| `RedactExtents.LiveTokenExtent` | crates/rb-secrets/src/redact.rs:120-126 | so does the pass for the live token |
| `RedactExtents.OneKeyGoes` | crates/rb-secrets/src/redact.rs:60-65 | through all passes, a text with one key and nothing else to redact loses exactly that key |
| `RedactTheorems.AbsentKept` | crates/rb-secrets/src/redact.rs:120-232 | a bracket-free text that is absent, also from the marker, stays absent through any pass |
| `RedactTheorems.StandardIsClean` | crates/rb-secrets/src/redact.rs:60-65 | after all passes nothing is left that any of them looks for, whatever the text was |
| `RedactExtents.NamesAreGone` | crates/rb-secrets/src/redact.rs:60-65 | spelled out: no `rb_live_`, and none of the three names |
| `RedactExtents.JwtsAreGone` | crates/rb-secrets/src/redact.rs:60-65 | and at no place `eyJ` with three dotted runs of letters, digits and `-_=` |
| `RedactTheorems.StandardIsIdempotent` | crates/rb-secrets/src/redact.rs:60-65 | the passes leave exactly the clean texts alone, so a second run changes nothing |
| `RedactTheorems.DottedTokenIsGone` | crates/rb-secrets/src/redact.rs:120-126 | a live token with a `.` and no angle bracket does not occur in the final text |
| `RedactTheorems.LiveTokenIsGone` | crates/rb-secrets/src/redact.rs:120-126 | nor does any other bracket-free token that no marker contains |
| `RedactExact.LiveTokenIsGoneExactly` | crates/rb-secrets/src/redact.rs:120-126 | a bracket-free token is gone from every redacted text if and only if no marker contains it |
| `Redactor.PassUtf8` | crates/rb-secrets/src/redact.rs:120-232 | no pass breaks a character apart |
| `Redactor.FindSegment` | crates/rb-secrets/src/redact.rs:153-164 | one dot search with the check before it finds a base64url segment, and cuts on character boundaries |
| `Redactor.JwtSpan` | crates/rb-secrets/src/redact.rs:153-169 | the length of a JWT at the start of the text, or none; every slice falls on a character boundary |
| `Redactor.ApplyJwtPattern` | crates/rb-secrets/src/redact.rs:129-150 | the find-and-slice loop computes the JWT pass, slicing on character boundaries only |
| `Redactor.ApplyBearerPattern` | crates/rb-secrets/src/redact.rs:180-204 | the loop over the text and its lower-case copy computes the bearer pass, slicing on character boundaries only |
| `Redactor.ApplyKeyPattern` | crates/rb-secrets/src/redact.rs:208-222 | the `rb_live_` loop computes its pass, slicing on character boundaries only |
| `Redactor.ApplyPrefixPattern` | crates/rb-secrets/src/redact.rs:207-229 | key pass, then the three names in order |
| `Redactor.FastPathIsClean` | crates/rb-secrets/src/redact.rs:111-118 | a text that needs no scan is one no pass would change |
| `Redactor.RedactWithToken` | crates/rb-secrets/src/redact.rs:47-66 | the caller gets its own, undecoded text back exactly when the scan finds nothing in the decoded text; else the redaction of the decoded text, which is clean and well-formed |
| `RedactBorrowed.BorrowedExactly` | crates/rb-secrets/src/redact.rs:47-118 | the caller gets its own text back if and only if the decoded text holds none of the five patterns, no bearer word in any case, and not the live token |
| `RedactReturned.ReturnedIsCleanExactly` | crates/rb-secrets/src/redact.rs:47-118 | the text that comes back, on either path, is clean if and only if it was rewritten, or nowhere in it a JWT or a bearer word without its marker stands right behind a percent sign and an octal digit |
| `RedactReturned.ReturnedLacksTokenExactly` | crates/rb-secrets/src/redact.rs:47-118 | it lacks a dotted live token if and only if it was rewritten, or the token stands nowhere in it with its first character taken by an escape (or, for a token with a percent sign, nowhere at all) |
| `RedactReturned.BorrowedMissesOnlySwallowed` | crates/rb-secrets/src/redact.rs:47-118 | a text that comes back as it was holds no key and no secret name; a JWT start or a bearer word in it stands right behind a percent sign and an octal digit, with which its first letter makes an escape |
| `RedactReturned.EscapeFreeIsClean` | crates/rb-secrets/src/redact.rs:47-118 | whatever comes back for a text without escapes is clean |
| `RedactReturned.BorrowedTokenIsTaken` | crates/rb-secrets/src/redact.rs:52-58 | a live token in a text that comes back as it was has its first character taken by an escape |
| `RedactReturned.SwallowedComesBack` | crates/rb-secrets/src/redact.rs:47-58 | it happens: a JWT behind `%0` comes back verbatim, even when it is the live token |
| `RedactTwice.TwiceIsOnceExactly` | crates/rb-secrets/src/redact.rs:47-66 | a second call on what came back changes nothing if and only if it finds nothing to redact there, or no escape is left in it |
| `RedactTwice.TwiceEncodedJwt` | crates/rb-secrets/src/redact.rs:47-66 | it can change it: of a JWT with twice-encoded dots the first call gives the once-encoded text, the second the marker |
| `Ring.RingBuffer.EvictExpired` | crates/rb-sse/src/broadcaster.rs:61-72 | drops from the front what is older than the cutoff, up to the first that is not |
| `Ring.RingBuffer.Push` | crates/rb-sse/src/broadcaster.rs:36-42 | the new buffer: expired and, when full, oldest dropped, then the event appended (also with capacity zero) |
| `Ring.RingBuffer.ReplayAfter` | crates/rb-sse/src/broadcaster.rs:48-52 | the answer: everything behind the first event of that id, or none |
| `Ring.EvictedExactly` | crates/rb-sse/src/broadcaster.rs:61-72 | eviction drops the longest front of events older than the cutoff, and nothing else |
| `Ring.NothingExpired` | crates/rb-sse/src/broadcaster.rs:36-72 | with events in the order of their times, nothing expired is left after any operation, the event just pushed aside |
| `Ring.BufferIsRecentLog` | crates/rb-sse/src/broadcaster.rs:36-72 | after any run at any clock readings the buffer is a contiguous suffix of everything pushed, of at most max(cap, 1) events |
| `Ring.ReplayIsEverythingAfter` | crates/rb-sse/src/broadcaster.rs:48-52 | event ids being distinct, an answer to a replay is exactly everything ever pushed after that id |
| `Ring.RecentIsRetained` | crates/rb-sse/src/broadcaster.rs:36-72 | the last n <= cap events are all still there, if none of them had expired at any reading |
| `SseProtocol.StepKeepsInv` | crates/rb-sse/src/broadcaster.rs:117-156 | every step of any interleaving keeps: each pushed event is sent once or on its way; a client missed nothing pushed after it subscribed; a replay is the log after the last id |
| `SseProtocol.RunKeepsInv` | crates/rb-sse/src/broadcaster.rs:117-156 | so does every run |
| `SseProtocol.RingIsBuffer` | crates/rb-sse/src/broadcaster.rs:117-156 | in every interleaving the buffer is what the pushes and replays so far make of the replay buffer |
| `SseProtocol.ReadIsReplay` | crates/rb-sse/src/broadcaster.rs:150-156 | and a client reads what that buffer answers at that moment |
| `SseTheorems.ReplayStartsAfterLastId` | crates/rb-sse/src/broadcaster.rs:150-156 | the replay is the log from right after an event of the last id |
| `SseTheorems.NoLostEvent` | crates/rb-sse/src/broadcaster.rs:117-156 | in every interleaving an event owed to a client was replayed or heard, or waits on its channel, or is about to be sent, or the client has fallen behind and a reset is what it gets |
| `SseTheorems.HeardOnce` | crates/rb-sse/src/broadcaster.rs:117-133 | no event is sent on a channel twice |
| `SseTheorems.GotTwiceExactly` | crates/rb-sse/src/broadcaster.rs:138-156 | a client that has caught up got an event both from the replay and from its channel if and only if it was replayed and not yet sent when the client subscribed |
| `SseTheorems.UnknownIdMissesExactly` | crates/rb-sse/src/broadcaster.rs:138-156 | a client whose last id was not found gets no replay and has missed nothing after position p if and only if nothing later was sent before it subscribed |
| `SseReconnect.ReconnectMissesExactly` | crates/rb-sse/src/broadcaster.rs:117-156 | a client that leaves and comes back with the id of an event the buffer still has misses, of what was owed to it, exactly the events pushed no later than that one that were sent while it was away and that no replay gave it |
| `SseReconnect.OrderedMissesNothing` | crates/rb-sse/src/broadcaster.rs:117-156 | with sends in the order of the pushes, and the id of an event it got, it misses nothing |
| `SseReconnect.OvertakenIsMissed` | crates/rb-sse/src/broadcaster.rs:117-156 | it happens: two publishes whose sends overtake each other, and a client that hears the later one, leaves and comes back, never gets the earlier one, which is still in the buffer |
| `SseStream.EventStream.NextReplayed` | crates/rb-sse/src/stream.rs:160-165 | takes the next matching event out of the replay and nothing else |
| `SseStream.EventStream.Next` | crates/rb-sse/src/stream.rs:150-187 | each poll gives the next item of the future of the stream, and loses none; a reset is the last |
| `SseStream.StreamShape` | crates/rb-sse/src/stream.rs:135-190 | matching replay, then matching live events up to the first stop, then a reset exactly when that stop is a lag |
| `SseStream.EmittedExactly` | crates/rb-sse/src/stream.rs:135-199 | of the replay and of what was received before the first stop, exactly the events of the session of the client are emitted, in order, or all of them if it named none; then a reset exactly on lag |
| `SseStream.OnlyOwnSession` | crates/rb-sse/src/stream.rs:192-198 | an event is emitted to a client with a session if and only if it is among these and of that session |
| `SseTheorems.OwedIsEmitted` | crates/rb-sse/src/stream.rs:135-199 | end to end: once a client has caught up, every owed event of its session, or every owed event if it named none, has been emitted to it |
| `SseTheorems.ResetIsLag` | crates/rb-sse/src/stream.rs:177-184 | a reset is emitted exactly on lag, once, as the last item |
| `TokenCache.Cache.ReadFresh` | crates/rb-github/src/token_cache.rs:103-113 | answers the cached token exactly when more than the safety margin is left |
| `TokenCache.Cache.EvictExpired` | crates/rb-github/src/token_cache.rs:117-120 | keeps exactly the unexpired entries, and no later freshness check can tell the difference |
| `TokenCache.Cache.GetOrMint` | crates/rb-github/src/token_cache.rs:79-101 | one call on its own: mints exactly when both checks fail, inserts only on success, hands the error on |
| `TokenTheorems.StepKeeps` | crates/rb-github/src/token_cache.rs:79-120 | every step of any interleaving keeps the invariant: one owner per installation, and each minted token spent, cached or about to be |
| `TokenTheorems.SingleFlight` | crates/rb-github/src/token_cache.rs:79-101 | at most one mint per installation is under way, and it started with every earlier token down to the margin |
| `TokenTheorems.MintsAreSpacedOut` | crates/rb-github/src/token_cache.rs:79-101 | of two successful mints for an installation, the earlier token had at most the margin left at the check of the later task |
| `TokenTheorems.ServedIsGenuine` | crates/rb-github/src/token_cache.rs:103-113 | a token served from the cache was minted for that installation and had more than the margin left |
| `TokenTheorems.TenMinutes` | crates/rb-github/src/token_cache.rs:79-113 | the margin spelled out: ten minutes, for every token served and between any two mints |
| `TokenTheorems.UnexpiredStays` | crates/rb-github/src/token_cache.rs:117-120 | no step of any task drops a token before it expires; only a newer one replaces it |
| `TokenTheorems.EvictionIsInvisible` | crates/rb-github/src/token_cache.rs:117-120 | with all evictions taken out of a run, its tasks, mints and answers are the same |
| `Calendar.CivilInverts` | crates/rb-tracing/src/json_layer.rs:13-25 | for every day number the result is a date of the Gregorian calendar, and counting years, months and days up to it gives the number back |
| `Calendar.CivilIsOnto` | crates/rb-tracing/src/json_layer.rs:13-25 | every date comes from its own number |
| `Calendar.Successive` | crates/rb-tracing/src/json_layer.rs:13-25 | the next number is the next calendar day |
| `Calendar.OverflowsExactly` | crates/rb-tracing/src/json_layer.rs:13-25 | on i64 every intermediate value fits if and only if the first addition does |
| `TimestampTheorems.RoundTrip` | crates/rb-tracing/src/json_layer.rs:29-52 | the printed timestamp reads back to the very seconds and nanoseconds of the clock (zero seconds when they do not fit an i64) |
| `TimestampTheorems.ClockReadsBack` | crates/rb-tracing/src/json_layer.rs:29-42 | spelled out: seconds below 2^63 and all nanoseconds come back; later times and times before 1970 come back as zero seconds |
| `TimestampTheorems.PrintIsInjective` | crates/rb-tracing/src/json_layer.rs:29-52 | equal timestamps show equal seconds and nanoseconds |
| `TimestampTheorems.FractionShape` | crates/rb-tracing/src/json_layer.rs:44-51 | no fraction for whole seconds; otherwise at most nine digits and no zero at the end |
| `TimestampTheorems.IsRfc3339Exactly` | crates/rb-tracing/src/json_layer.rs:29-52 | the timestamp is a `date-time` of section 5.6 of RFC 3339 if and only if the time is before the year 10000 |
| `BlobStore.FilesystemStore.Sha256ExistsOtherTenant` | crates/rb-blob/src/filesystem.rs:90-102 | the walk over the directory, in any order, finds whether another tenant has a marker |
| `BlobPaths.TouchesOwnOnlyExactly` | crates/rb-blob/src/filesystem.rs:69-86 | a get or delete works on the files of its own tenant and name, and on no other file of the store, if and only if the name is a single plain path component and not that of a temporary file |
| `BlobPaths.PlacesDiffer` | crates/rb-blob/src/filesystem.rs:69-86 | for such names the paths of blobs, markers and temporary files are pairwise different, of one key and of any two |
| `BlobRuns.SparesOthersExactly` | crates/rb-blob/src/filesystem.rs:190-201 | a delete removes none but its own blob and marker, whatever is on the disk, if and only if the name it is given is a single plain component |
| `BlobRuns.SiblingIsReached` | crates/rb-blob/src/blob_ref.rs:50-66 | with a name that leads up and into the directory of another tenant, a get answers the blob of that tenant and a delete removes it |
| `BlobRuns.MarkerIsReached` | crates/rb-blob/src/blob_ref.rs:50-66 | with a name that leads into the index, a delete removes the marker of another tenant and leaves its blob without one |
| `BlobRuns.TempIsReached` | crates/rb-blob/src/filesystem.rs:170-172 | with the name of a temporary file, a get answers what a put has written so far |
| `BlobPaths.AbsoluteName` | crates/rb-blob/src/filesystem.rs:69-73 | a name that begins with a slash leads out of the store |
| `BlobStore.FilesystemStore.Put` | crates/rb-blob/src/filesystem.rs:114-167 | size and hash are checked first and a refused put writes nothing; else marker and blob are there |
| `BlobStore.FilesystemStore.Get` | crates/rb-blob/src/filesystem.rs:170-187 | the file its path leads to, whatever the name; of a missing one, a mismatch exactly when the index directory of the name has the entry of another tenant; with a name of its own what it answers hashes to that name |
| `BlobStore.FilesystemStore.Delete` | crates/rb-blob/src/filesystem.rs:190-211 | removes the file its path leads to, and its marker; of a missing one it says whether another tenant has an entry; with a name of its own it leaves every other blob with its marker |
| `BlobRuns.HoldsTheLastPut` | crates/rb-blob/src/filesystem.rs:114-211 | after every run whose names are plain components and no temporary files, the blob read for such a name is the one that the last operation on its key left |
| `BlobRuns.MarkersAreOwnership` | crates/rb-blob/src/filesystem.rs:114-211 | after such a run the marker of a key is there exactly when its blob is, and content hashes to its name |
| `BlobRuns.MismatchIsOwnership` | crates/rb-blob/src/filesystem.rs:170-187 | and a get answers a mismatch if and only if its tenant lacks the content and another one has it |
| `BlobRuns.OthersDoNotMatter` | crates/rb-blob/src/filesystem.rs:114-211 | after such a run the blob of a key is what it would be if the operations on all other keys were left out |
| `BlobFiles.RunFollows` | crates/rb-blob/src/filesystem.rs:114-211 | every run of file-system steps of any tasks, over such names and with crashes, does to the files, tasks and answers what the machine over keys says |
| `BlobCrash.StepKeeps` | crates/rb-blob/src/filesystem.rs:114-211 | with exclusive puts every step of that machine, and every crash, keeps: a blob has its marker and hashes to its name |
| `BlobFiles.AlwaysSoundOnDisk` | crates/rb-blob/src/filesystem.rs:114-211 | so after every run over such names each blob at its final path has its marker and hashes to its name, when no put overlaps another put or a delete of the same blob; deletes may overlap |
| `BlobFiles.SoundOnDiskExactly` | crates/rb-blob/src/filesystem.rs:114-211 | every run is sound if and only if puts are exclusive and no get or delete is given another kind of name |
| `BlobCrash.TwoPutsTruncate` | crates/rb-blob/src/filesystem.rs:147-163 | two puts of one blob share its temporary file, and the first rename can publish a truncated one |
| `BlobCrash.PutAndDeleteUnmark` | crates/rb-blob/src/filesystem.rs:190-201 | a put that overlaps a delete of the same blob can leave it without its marker |
| `BlobReports.StaleMarkers` | crates/rb-blob/src/filesystem.rs:130-211 | in every reachable state a marker stands without its blob if and only if a put or delete is at work on it, or a crash or failure cut one short and none has completed since |
| `BlobReports.OwnersAreReported` | crates/rb-blob/src/filesystem.rs:90-102 | a listing of the markers, in any reachable state, crashed or not, reports every other owner of that moment |
| `BlobReports.ReportIsRightExactly` | crates/rb-blob/src/filesystem.rs:90-102 | what such a listing says of other owners is right at that moment if and only if another tenant has the content, or none has it half: put or deleted by a task at work, or cut short and not made up for |
| `BlobAnswers.AnswerIsRightExactly` | crates/rb-blob/src/filesystem.rs:170-187 | the error that a get answers and the run records is right (the tenant lacks the blob, and another has it exactly on a mismatch) if and only if no put of its blob completed and stayed between its read and its listing, and that listing was right |
| `BlobAnswers.ErrorsAreListed` | crates/rb-blob/src/filesystem.rs:170-187 | every recorded error is such an answer |
| `BlobAnswers.NotOvertaken` | crates/rb-blob/src/filesystem.rs:170-187 | when no put of its blob completes in between, nothing has come between its read and its listing |
| `BlobAnswers.NotFoundMisleads` | crates/rb-blob/src/filesystem.rs:170-187 | it can be wrong with exclusive puts and no crash: a get answers not found though the content was there at every moment of the call, and the tenant has it at the end |
| `BlobReports.CalmReportIsRight` | crates/rb-blob/src/filesystem.rs:170-187 | so with no crash or failure and no writer at work it is right, and the markers are the owners |
| `BlobReports.StaleMarkerMisleads` | crates/rb-blob/src/filesystem.rs:130-145 | it can be wrong: after a crash or a mere failure between marker and blob, another tenant is told of a mismatch though nobody has the blob |
| `Resolver.PushRequested` | crates/rb-feature-resolver/src/resolver.rs:44-52 | the first requested feature that the manifest lacks is the error |
| `Resolver.SeedDefaults` | crates/rb-feature-resolver/src/resolver.rs:55-67 | default and its own-crate children are queued, if asked for and declared |
| `Resolver.CollectWorkspaceUnified` | crates/rb-feature-resolver/src/resolver.rs:120-175 | queues exactly the features of this crate that a usable sibling member asks for |
| `Resolver.PushChildren` | crates/rb-feature-resolver/src/resolver.rs:88-94 | queues exactly the own-crate features of the list that are not resolved yet |
| `Resolver.ExpandAll` | crates/rb-feature-resolver/src/resolver.rs:73-98 | the worklist terminates with the closure of the queue, or fails exactly when that has more than 4096 features |
| `Resolver.Resolve` | crates/rb-feature-resolver/src/resolver.rs:31-98 | unknown feature, then unreadable workspace, then the closure of the seeds or the cap |
| `ResolverExact.FirstUnknownIs` | crates/rb-feature-resolver/src/resolver.rs:44-52 | the unknown feature that is reported is the first requested one that the manifest lacks |
| `ResolverExact.ResolvedExactly` | crates/rb-feature-resolver/src/resolver.rs:31-175 | a known request resolves to exactly the features that entries of the manifest lead to from the requested ones, the default, and those that other members of the workspace ask for; `dep:` entries and entries with a slash lead nowhere |
| `Resolver.ClosureIsLeast` | crates/rb-feature-resolver/src/resolver.rs:73-98 | that closure is the least set that contains the seeds and is closed under self-feature entries |
| `Resolver.ClosureIsReachability` | crates/rb-feature-resolver/src/resolver.rs:73-98 | a feature is in it if and only if a chain of entries leads there from a seed |
| `Resolver.ResolveIsMonotone` | crates/rb-feature-resolver/src/resolver.rs:31-98 | asking for more, or a larger workspace, never takes a feature away |
| `Resolver.DefaultChildrenAreRedundant` | crates/rb-feature-resolver/src/resolver.rs:59-66 | queueing the children of default beside it changes nothing |
| `Resolver.SmallManifestsResolve` | crates/rb-feature-resolver/src/resolver.rs:82-86 | no cycle is an error by itself: with at most 4096 features in the manifest the cap is never met |
| `Kafka.BuildHeaders` | crates/rb-kafka/src/producer.rs:206-271 | the header list: five mandatory headers, the blob reference, the explicit trace context or else what is injected |
| `Kafka.DlqHeaders` | crates/rb-kafka/src/consumer.rs:422-479 | the headers rebuilt for a dead letter are those of the envelope, with reason and time behind them |
| `KafkaTheorems.DecodesBack` | crates/rb-kafka/src/producer.rs:274-365 | headers built for an envelope decode to the same envelope, to the millisecond, once the due time has come |
| `KafkaRefusals.RefusedExactly` | crates/rb-kafka/src/producer.rs:288-344 | arbitrary headers: each error is given if and only if its check fails and none before it does, in the order tenant, event, version, due time, payload |
| `KafkaRefusals.ReadsHeaders` | crates/rb-kafka/src/producer.rs:288-365 | what a readable envelope says is what the first header of each key says |
| `KafkaRefusals.ReadsNumbers` | crates/rb-kafka/src/producer.rs:326-349 | an attempt that is missing or unreadable is zero, a time that is missing, unreadable or out of range is now |
| `KafkaRefusals.UnsignedExactly` | crates/rb-kafka/src/producer.rs:326-333 | an unsigned number is read if and only if it fits and the text is its decimal digits, with any zeros in front, and with a plus sign or not |
| `KafkaRefusals.SignedExactly` | crates/rb-kafka/src/producer.rs:346-349 | a signed one if and only if it fits an i64 and the text is such digits behind a minus sign, or as for an unsigned one |
| `KafkaRefusals.ChronoYears` | crates/rb-kafka/src/producer.rs:346-349 | the times in range are those of the years -262143 to 262142 |
| `KafkaRefusals.KeyOrder` | crates/rb-kafka/src/producer.rs:206-271 | the keys of a written envelope, in order |
| `KafkaTheorems.NormalPath` | crates/rb-kafka/src/producer.rs:206-271 | on the normal path |
| `KafkaTheorems.DeadLetterPath` | crates/rb-kafka/src/consumer.rs:422-479 | from the dead-letter queue |
| `KafkaTheorems.RetryPath` | crates/rb-kafka/src/producer.rs:140-163 | one retry round is refused, or unreadable before its delay is over, or gives the same envelope one attempt on |
| `KafkaTheorems.ChainIsBounded` | crates/rb-kafka/src/retry.rs:30-54 | a fresh message survives a chain of rounds if and only if they are fewer than the attempts allowed and each waited its delay; then it is the same message |
| `KafkaTheorems.DelaysGrow` | crates/rb-kafka/src/retry.rs:30-38 | delays never shrink |
| `KafkaRefusals.DelayIs` | crates/rb-kafka/src/retry.rs:6-38 | thirty seconds for the first attempt, two minutes for the second, ten for later ones, none from the last on |
| `KafkaTheorems.DefaultPolicy` | crates/rb-kafka/src/retry.rs:4-11 | under the default policy a message goes round at most twice and never waits the ten minutes of the schedule |
| `Watchdog.HealthyConsumer.DoRecreate` | crates/rb-kafka-health/src/watcher.rs:166-186 | a new consumer resets clock, flag and streak; a failed attempt changes nothing |
| `Watchdog.HealthyConsumer.Once` | crates/rb-kafka-health/src/watcher.rs:193-278 | one turn of the loop, and whether it returns to the caller |
| `Watchdog.HealthyConsumer.Next` | crates/rb-kafka-health/src/watcher.rs:192-279 | a call runs turns up to the first that answers, and returns that answer |
| `Watchdog.TurnsAreRight` | crates/rb-kafka-health/src/watcher.rs:193-278 | over any history, a turn delivers if and only if a message comes in time, passes on the end of the stream if and only if that does, and an error if and only if one comes in time and does not reach the limit; nothing else returns |
| `Watchdog.NextAnswersFirst` | crates/rb-kafka-health/src/watcher.rs:192-279 | behind any history, a call returns at the first turn that is answered in this sense |
| `Watchdog.FewErrorsBetweenResets` | crates/rb-kafka-health/src/watcher.rs:212-227 | in any stretch of a run without a message or a new consumer, fewer errors than the limit reach the caller |
| `Watchdog.RecreatesExactly` | crates/rb-kafka-health/src/watcher.rs:212-277 | over any history, a turn tries to recreate exactly when one more error would reach the limit, or on a stall with lag, or on a stall of a consumer that has delivered and has no partitions left |
| `Watchdog.StartupIsLeftAlone` | crates/rb-kafka-health/src/watcher.rs:244-277 | before the first message, with no lag and no errors, the consumer is never recreated |
| `Watchdog.BookkeepingIsRight` | crates/rb-kafka-health/src/watcher.rs:166-186 | the counter is the number of consumers made, the one in use is the last made, and the flag says whether it has delivered |
| `Rrf.TallyScores` | crates/rb-query/src/hybrid.rs:232-244 | the score of each name is the sum of 1/(k+rank) over all its positions in both lists |
| `Rrf.PointsOfRank` | crates/rb-query/src/hybrid.rs:232-244 | in a list without repeats a name of rank r, counted from one, gets 1/(k+r) |
| `Rrf.ScoreOfRanks` | crates/rb-query/src/hybrid.rs:232-244 | so the score of a name with rank a in one list and b in the other is 1/(k+a)+1/(k+b), and one of these if it is in one list only |
| `Rrf.FirstRepos` | crates/rb-query/src/hybrid.rs:247-253 | the repository of a name is that of its first dense hit, else of its first sparse hit |
| `Rrf.RepoInDense` | crates/rb-query/src/hybrid.rs:247-253 | the first dense hit of a name decides |
| `Rrf.NotInDense` | crates/rb-query/src/hybrid.rs:247-253 | without a dense hit the first sparse one does |
| `Rrf.RankAll` | crates/rb-query/src/hybrid.rs:255-256 | each name once with its score, best first |
| `Rrf.RrfFuse` | crates/rb-query/src/hybrid.rs:226-266 | min(limit, names) entries without repeats, best first, scores and repositories right, no dropped name above a kept one |
| `Rrf.ScoresAreDetermined` | crates/rb-query/src/hybrid.rs:255-257 | however ties fall, the scores are the same place by place |
| `RrfHits.HitsAreTheCited` | crates/rb-query/src/hybrid.rs:178-213 | the hits are exactly the fused names that have a source path |
| `RrfHits.PathExactly` | crates/rb-query/src/hybrid.rs:206-213 | a path counts if and only if some character of it is no white space of Unicode |
| `RrfHits.HitsAreShares` | crates/rb-query/src/hybrid.rs:181-186 | each hit has the name, the repository and the share of the best score of a fused name |
| `RrfHits.HitsAreLocated` | crates/rb-query/src/hybrid.rs:187-198 | and the location of the last sparse hit of the name, else of the database, else none |
| `RrfHits.AnnotatedHits` | crates/rb-query/src/hybrid.rs:169-213 | scores in [0, 1], best first, no name twice; a cited top name scores exactly one |

## Left out

- Drivers and services: rdkafka, reqwest, sqlx, neo4rs, Qdrant, SMTP, OpenTelemetry and axum, the HTTP layer and the front end. Their answers are parameters.
- `crates/rb-blob/src/s3.rs`: the same protocol as the filesystem store.
- Non-ASCII Cypher: the rewriter widens bytes to characters one by one, so its output is the query's only for ASCII; the theorems speak of the characters it reads and writes.
- Parentheses.LabelledExactly: speaks of queries whose brackets and patterns hold no backtick or comment opener outside quotes; with one the scanners may part for good, as in `ReadOnly.MixedIsNotFullyLabelled`.
- The end of an unclosed `[`: the rewriter supplies a `]`, which `InjectorTheorems.Erasure` accounts for and no theorem calls correct.
- Injection twice: labelling an already labelled query adds a second label, so nothing is claimed about it.
- RedactExact.LiveTokenIsGoneExactly: speaks of tokens without angle brackets; one with a bracket may be put together from a marker and its neighbours.
- BlobFiles.AlwaysSoundOnDisk: needs puts of one blob not to overlap with its other writers, and gets and deletes to be given plain names, neither of which the code sees to; `BlobFiles.SoundOnDiskExactly` says that both are needed.
- Paths that the file system resolves in its own way: symbolic links, directories on the way that are missing, NUL bytes. A path here is the list of its components, `.` and `..` taken away by their text.
- Empty directories: a directory is there when a file is below it, or when it is the one an operation creates.
- Answers of deletes in the machine of many tasks: only the class has them.
- A put that finds its `.tmp` file renamed away by another put of the same blob: its writes are not modelled beyond that.
- Reordering of file-system steps by a power failure: a crash loses tasks, not completed steps; I/O errors are a task that fails between two steps.
- Two settings of the event stream as given: the model's time to live is the one in force (300 seconds when the configured one does not fit), and its channel size the one tokio rounds up to.
- A poisoned lock of the replay buffer: `publish` and `subscribe_raw` then skip the buffer; no step of the model panics.
- Several tenants at once in the event protocol: each has its own state, so one is modelled.
- Tasks of the token cache that panic between minting and inserting, and the sweep's timer.
- KafkaTheorems.ChainIsBounded: speaks of rounds that are decoded; `Consumer::next` commits the offset of a message that is not yet due, so delivery from end to end is not claimed.
- Kafka.PublishRetry: an attempt of 2^32-1 is excluded, where the increment overflows.
- The trace header that OpenTelemetry injects when an envelope has no context: an arbitrary list of foreign headers.
- Rrf.RrfFuse: exact reals, so nothing is said about rounding of `f32` or about a NaN.
- The log layer's fields and spans, `wait_for_topics`, lag gauges and metrics counters.
- Easy members: hex labels and schemas, sessions, API keys, mail, rate limits, configuration, syntax-tree visitors.
