# Triplet in Dafny

Triplet is a IIIF image and document server. libvips does its pixel work; the Go code
around it decides who may see what, what is cached under which name and for how long,
which pixels a URL means, and how concurrent requests share work. This project models
that code and proves what it is for.

`dafny verify dfyconfig.toml` checks everything.

| file | what it models |
|---|---|
| `OpenCoalescing.dfy` | the reference-counted download that concurrent opens of one source share: every interleaving of goroutines, and the table as a class |
| `MetaCoalescing.dfy`, `Refreshing.dfy` | the shared metadata lookup; background refreshes of stale sources and fetches after a miss |
| `AuthKeys.dfy`, `AuthCache.dfy`, `AuthProbes.dfy`, `AuthConfusion.dfy` | the key of an authorization decision, the bounded cache of decisions, the probe protocol over every interleaving, and the runs that show its guarantee is exact |
| `DocumentStore.dfy`, `MariaDBStore.dfy`, `FileDocumentStore.dfy`, `PresentationKeys.dfy` | conditional writes to Presentation documents: the atomic map, its two implementations, and how a request names a document and its condition |
| `ImageRequests.dfy`, `ImageParsing.dfy`, `PercentEncoding.dfy`, `Decimals.dfy`, `Strings.dfy` | the Image API URL grammar, its printers, and the string functions below them |
| `DerivativeKeys.dfy`, `CacheFiles.dfy`, `Invalidations.dfy`, `MetaCache.dfy`, `MetaCacheRuns.dfy` | cache keys, the file cache and its cleanup, invalidation markers over every interleaving, the metadata cache by itself and under concurrent callers |
| `Geometry.dfy` | regions, sizes, pyramid pages, pixel limits |
| `PDF.dfy` | the two writers of the single-image PDF, and a reader of what they write |
| `RangeReader.dfy` | the seekable reader over HTTP ranges against the in-memory one |
| `Digests.dfy`, `Int64.dfy`, `Wrappers.dfy` | what the others share |

Conventions. Each `authMu` or `mu` critical section is one atomic step, and so is each SQL
statement; everything a goroutine does between them is a step of its own, so a run is any
interleaving. Time is a number given to each operation. SHA-256 is an injective function to
hex digits. A Go string is a sequence of bytes; a `float64` in a URL is the exact decimal
its shortest form shows, and in geometry an exact quotient. Objects the source updates in
place are classes, and their methods are proved against the functions the run theorems are
about.

What the proofs found, each stated exactly in the project:

- `KeyIdentifiesUnlessAmbiguous`, `VouchedForIffUnambiguous`: the hashed key of an authorization
  decision identifies its credentials, and so a caller is let in only on a probe that vouches for
  it, exactly unless a header value `Cookie` sits at the boundary between the caller's own
  Authorization and Cookie values. What other callers send does not matter.
- `LateStoreOutlivesItsMarker`, `OldTagMatchesIffMarkerExpired`: an invalidation hides what
  was *stored* before it for ever, but with an expiry configured a derivative begun before it
  and stored late is served again once the marker has expired, and old entity tags then match again.
- `HarmlessIffTolerable`: which source versions can undo that: those ending in
  `/cache/invalidation`, and those ending in `#invalidate=` and the moment of an invalidation
  after a version that is itself of neither kind.
- `KeysMeetExactly`: with a `#` in a source version two keys can meet in two ways: the version
  spells out the invalidation of the same image, or an identifier spells out the request of
  another image and the beginning of its version.
- `ResolveRegion`: a region whose far edge exceeds an int64 is not clipped, and one that lies
  wholly beyond int64 is not refused.
- `OutputTestIsExact`, `NarrowRegionsOverflow`: the test on the output area is right exactly while
  the true area is an int64; a region of 1 by 10,000,000 pixels is enough to exceed that.
- `UpscaleOnlyLiftsALimit`: a percentage over 100 is refused even where rounding would not enlarge.
- `FormatInt64`: the decimal form of the least int64 loses its digits.
- `ScanIsRightUnlessEmptyIsAlone`: the metadata cache takes the key of the empty identifier for
  "none yet" and may then evict an entry that is not the oldest.

## Model

| member | source | states |
|---|---|---|
| OpenCoalescing.RefsCountHolders | internal/storage/local_url.go:649-691 | in every run `refs` is the number of goroutines that still hold the call, and the removals of its file, done or due, are exactly one once a published file has no holder and none before |
| OpenCoalescing.OneLeaderPerKey | internal/storage/local_url.go:649-662 | at most one goroutine fetches for a key |
| OpenCoalescing.FollowersJoinOpenCalls | internal/storage/local_url.go:649-678 | nobody joins a call after its result is out; a joined call has exactly one leader |
| OpenCoalescing.HoldersFindTheFile | internal/storage/local_url.go:351-365 | whoever opens or has open a successful result finds that call's own file on disk; `OpeningHandsOutTheFile` says who is handed it |
| OpenCoalescing.OpeningHandsOutTheFile | internal/storage/local_url.go:351-365 | in every run whoever opens the result of its call is handed the file exactly when the system does not refuse it and the run contains the success of the leader's fetch; otherwise it goes on to release |
| OpenCoalescing.SharersOpenAlike | internal/storage/local_url.go:304-318 | all who open one call's result without being refused, leader or follower, end alike |
| OpenCoalescing.OutcomeIsFinal | internal/storage/local_url.go:664-678 | once one of them opened it, the outcome of the call does not change |
| OpenCoalescing.EveryoneOpensOrIsCancelled | internal/storage/local_url.go:304-318 | nobody ends without opening the result, unless it was cancelled |
| OpenCoalescing.HoldersKeepTheFile | internal/storage/local_url.go:80-90 | who was handed the file holds it until it closes it |
| OpenCoalescing.RemovalHitsOwnFile | internal/storage/local_url.go:680-691 | a removal takes the call's own file, which is there, which nobody holds, and which nobody else removes |
| OpenCoalescing.LeaderNeverRemoves | internal/storage/local_url.go:664-678 | the removal branch of the finish is never taken |
| OpenCoalescing.QuiescentRunsLeaveNothing | internal/storage/local_url.go:304-365 | when all goroutines are done no file and no call is left, and every published file was removed exactly once |
| OpenCoalescing.RunsNeverStick | internal/storage/local_url.go:304-318 | no wake-up is lost: an unfinished goroutine can go on without being cancelled, or it waits and the one that is to answer its own call can |
| OpenCoalescing.StepKeepsInv | internal/storage/local_url.go:304-365 | every step of a leader, follower, cancellation, close or removal keeps the counts, calls and files consistent |
| OpenTables.OpenTable.BeginAuthFallbackOpen | internal/storage/local_url.go:649-662 | on the mutable table: the caller joins the call in flight, or registers and leads a new one with one reference, exactly as the protocol's step |
| OpenTables.OpenTable.FinishAuthFallbackOpen | internal/storage/local_url.go:664-678 | publishes the result, unregisters the call and says whether nobody is left to remove the file |
| OpenTables.OpenTable.ReleaseAuthFallbackOpen | internal/storage/local_url.go:680-691 | drops one reference, never below zero, and says whether this was the last of a published file |
| OpenTables.SharedFile.Close | internal/storage/local_url.go:80-90 | the first close of a reader releases its reference; every later one releases and removes nothing |
| MetaCoalescing.OneFetchPerKey | internal/storage/local_url.go:626-647 | at most one metadata fetch is under way for a key, and its channel is not closed yet, so it is closed once |
| MetaCoalescing.SharersAgree | internal/storage/local_url.go:289-302 | all who shared a call return the one answer its leader fetched |
| MetaCoalescing.ReturnedIsFetched | internal/storage/local_url.go:289-302 | whoever was not cancelled returns what the fetch for its call gave, at a step of the run by that call's leader |
| MetaCoalescing.AnswersComeFromTheFetch | internal/storage/local_url.go:640-647 | and nothing else is ever published |
| MetaCoalescing.WaitersAreServed | internal/storage/local_url.go:289-302 | a waiter can go on, or the leader of its call can |
| MetaTables.MetaTable.BeginAuthFallbackMeta | internal/storage/local_url.go:626-638 | on the mutable table: joins the call in flight or leads a new one |
| MetaTables.MetaTable.FinishAuthFallbackMeta | internal/storage/local_url.go:640-647 | stores the answer, unregisters the call and closes its channel |
| AuthKeys.SameKeyIffSameTokens | internal/storage/local_url.go:464-484 | two keys are equal exactly when the same strings were hashed in the same order |
| AuthKeys.ScopeOfKey | internal/storage/local_url.go:496-501 | the scope is recovered from the key as what precedes its first colon |
| AuthKeys.KeyIgnoresHeaderOrder | internal/storage/local_url.go:464-484 | the key does not depend on the order of the header values |
| AuthKeys.KeyIdentifiesUnlessAmbiguous | internal/storage/local_url.go:464-484 | a key determines tier, prefix, identifier and both multisets of header values exactly when no value `Cookie` sits at the boundary |
| AuthKeys.KeysIdentifyCredentials | internal/storage/local_url.go:464-484 | without an Authorization value `Cookie`, equal keys are equal tier, prefix, identifier and multisets of values |
| AuthKeys.ConfusedSharesKey | internal/storage/local_url.go:464-484 | every ambiguous set of headers has another, different one with the same key |
| AuthKeys.SharedFetchSameCredentials | internal/storage/local_url.go:486-494 | callers share an upstream fetch only for the same operation, source and credentials |
| AuthCache.StoreKeepsScopesBounded | internal/storage/local_url.go:539-588 | after a store the scope holds at most the maximum, the new entry among them, other scopes are untouched, and whatever went expires no later than every older entry that stayed |
| AuthCache.AuthCacheScopeLen | internal/storage/local_url.go:590-598 | counts the entries of one scope, in whatever order the map is ranged over |
| AuthCache.DecisionCache.CachedAuth | internal/storage/local_url.go:526-537 | answers an entry that has not expired; an expired one is dropped |
| AuthCache.DecisionCache.StoreAuth | internal/storage/local_url.go:539-547 | evicts in the scope, then stores |
| AuthCache.DecisionCache.EvictAuthLocked | internal/storage/local_url.go:561-588 | drops the expired entries of the scope and then the soonest to expire until there is room, nothing without need; terminates by the scope's size |
| AuthCache.DecisionCache.InvalidateAuth | internal/storage/local_url.go:550-559 | drops exactly the entries of the identifier |
| AuthProbes.OneProbePerKey | internal/storage/local_url.go:600-613 | at most one probe is in flight for a key, and one exactly while the key is registered |
| AuthProbes.SendsNeverBlock | internal/storage/local_url.go:615-624 | a finishing leader finds every waiter's channel open, distinct and with room, even if the waiter was cancelled |
| AuthProbes.WaitersGetTheProbeTheyJoined | internal/storage/local_url.go:443-462 | a waiter's channel is empty while the probe it joined is out, then holds exactly one value, the result of that very probe |
| AuthProbes.CacheHoldsOnlyAllowed | internal/storage/local_url.go:507-509 | only successful probes are ever cached, each under its own key |
| AuthProbes.CachedAnswersAreFresh | internal/storage/local_url.go:526-559 | an answer from the cache was stored by a caller with the same key no longer ago than its time to live, and after every earlier invalidation of the identifier |
| AuthProbes.ScopesStayBounded | internal/storage/local_url.go:539-588 | in every run a scope holds at most as many entries as the calls that may store in it allow |
| AuthProbes.AllowedOnlyOnOwnProbe | internal/storage/local_url.go:412-462 | among any other callers, one whose own headers are unambiguous is let in only on a successful probe of the same source, anonymous or with its own credentials, that it made, waited for, or found fresh in the cache; who is tried again, and that nothing else is refused, are the rows below |
| AuthProbes.RefusedOnlyWithCredentials | internal/storage/local_url.go:429-432 | in every run a caller with credentials that is told Forbidden or NotFound is told so by a recorded probe of the authenticated tier, its own or the one it waited for |
| AuthProbes.OutcomesStandUnlessRetried | internal/storage/local_url.go:425-432 | in every run an anonymous Forbidden or NotFound of a caller with credentials is never the end of it, and every other outcome is returned as it is, without a second tier |
| AuthProbes.DecidingMovesOn | internal/storage/local_url.go:425-432 | and no decision stays pending: it is retried with credentials or returned |
| AuthProbes.CredentialsOnlyAfterRefusal | internal/storage/local_url.go:425-432 | credentials are sent only for a caller that has some, and only after a recorded anonymous probe refused it |
| AuthProbes.GaveUpOnlyWhenCancelled | internal/storage/local_url.go:443-462 | nobody ends without the outcome of a probe but who was cancelled |
| AuthProbes.ProbesAreWhatCameBack | internal/storage/local_url.go:443-462 | what is on record of a probe is what came back, for what its prober asked at that moment |
| AuthProbes.DecisionsWithinTimeAnswer | internal/storage/local_url.go:526-537 | in every run a look-up is answered at once exactly when a decision under its key has not expired, and otherwise goes on to a probe |
| AuthProbes.AllowedProbesAreCached | internal/storage/local_url.go:539-547 | in every run a successful probe with a time to live was stored by its leader under its key, to expire that much later |
| AuthConfusion.AmbiguousCallersCanBeMistaken | internal/storage/local_url.go:412-484 | for every ambiguous request there is a run in which it waits for, and is let in on, a probe made with other credentials |
| AuthConfusion.VouchedForIffUnambiguous | internal/storage/local_url.go:412-484 | a request is let in only on a probe that vouches for it, in every run, if and only if its headers are unambiguous |
| AuthProbes.StepKeepsInv | internal/storage/local_url.go:412-462 | every step of a call, probe, cancellation, invalidation or clock tick keeps cache, channels and probes consistent |
| ProbeTables.ProbeTable.BeginAuthProbe | internal/storage/local_url.go:600-613 | on the mutable table of channels: takes the protocol's join with a new channel when the key is in flight, otherwise its lead |
| ProbeTables.ProbeTable.FinishAuthProbe | internal/storage/local_url.go:615-624 | takes the protocol's finish: unregisters the key, and every waiter's channel holds the outcome once and is closed |
| DocumentStore.ExactlyOneCreateWins | internal/iiif/presentation/v3/store/store.go:69-74 | in any one-at-a-time history without deletes exactly one `If-None-Match: *` create of an absent key succeeds |
| DocumentStore.NamedTagsGuardTheBody | internal/iiif/presentation/v3/store/store.go:51-63 | a replace or delete naming entity tags only hits a body carrying one of them |
| DocumentStore.ETagNamesOneBody | internal/iiif/presentation/v3/store/store.go:43-47 | equal entity tags are equal bodies |
| DocumentStore.PresenceIsOneCreation | internal/iiif/presentation/v3/store/store.go:69-74 | without deletes an absent key is present later exactly when some create succeeded, and one did at most |
| DocumentStore.GetsAnswerTheLastWrite | internal/iiif/presentation/v3/store/file.go:46-139 | in every legal history a get answers exactly the body that the last successful put or delete of its key left, or that was there from the start, and nothing exactly when there is none |
| DocumentStore.WritesAreDecidedByTheContent | internal/iiif/presentation/v3/store/store.go:51-74 | in every legal history a put succeeds exactly as a create where the history left nothing or as a replace where it left a body with a named tag, a delete likewise; `created` is said exactly when there was nothing |
| MariaDBStore.RunsAreAtomic | internal/iiif/presentation/v3/store/mariadb.go:54-142 | every interleaving of the statements of `Get`, `Put` and `Delete`, with faults without effect and with lost answers whose effect comes at any later time or never, gives the table and the answers of one order of the atomic map; what that order means for contents is said by the two rows below |
| MariaDBStore.RowsAreTheLastWrites | internal/iiif/presentation/v3/store/mariadb.go:71-142 | in every interleaving each row is the body the last successful put of its key wrote, and there is none exactly when a delete came last or nothing did |
| MariaDBStore.GetsReturnTheLastWrite | internal/iiif/presentation/v3/store/mariadb.go:54-69 | and whatever a get returned, other than a fault, was so at its place in that order |
| MariaDBStore.OrderRespectsTime | internal/iiif/presentation/v3/store/mariadb.go:54-142 | a call answered before another is made precedes it in that order; only a call told of a fault may take effect later |
| MariaDBStore.ExactlyOneCreateReturns | internal/iiif/presentation/v3/store/mariadb.go:71-113 | of n concurrent creates of an absent key, with no deletes and no faults, exactly one is told it created the document and every other that its precondition failed |
| MariaDBStore.MoveAgrees | internal/iiif/presentation/v3/store/mariadb.go:71-142 | the statement that fixes a call's answer changes the table as the atomic map does at that moment; no other statement changes it |
| MariaDBStore.StepKeepsInv | internal/iiif/presentation/v3/store/mariadb.go:71-142 | every statement keeps row locks, locked bodies and history consistent |
| FileDocumentStore.FileStore.Get | internal/iiif/presentation/v3/store/file.go:46-72 | answers as the atomic map: the body that is there, or that there is none |
| FileDocumentStore.FileStore.Put | internal/iiif/presentation/v3/store/file.go:75-108 | answers and changes the documents as the atomic map: on success the document is the given body and nothing else changes; a fault before the rename changes nothing, one after it has written |
| FileDocumentStore.FileStore.Delete | internal/iiif/presentation/v3/store/file.go:111-139 | answers and removes as the atomic map: on success exactly the document is gone; or reports a fault before or after the removal |
| FileDocumentStore.FileStore.AtomicWriteFile | internal/iiif/presentation/v3/store/file.go:150-183 | the file is replaced as a whole or not at all, and no temporary file is left |
| FileDocumentStore.PathsAreDistinct | internal/iiif/presentation/v3/store/file.go:141-148 | distinct keys have distinct files, none of them a temporary one |
| PresentationKeys.RequestResource | internal/iiif/presentation/v3/handler/handler.go:209-236 | a path is accepted exactly when, with no query, it is the root followed by the key of some list of valid segments of at most 768 bytes, and the resource key is that key |
| PresentationKeys.KeysAreDistinct | internal/iiif/presentation/v3/handler/handler.go:223-236 | distinct lists of segments have distinct keys |
| PresentationKeys.KeyDecodes | internal/iiif/presentation/v3/handler/handler.go:218-233 | a key decodes to its segments and hides no separator, so no canonical path is refused |
| PresentationKeys.AdmittedConditions | internal/iiif/presentation/v3/handler/handler.go:238-271 | an admitted write is either create-only or names strong tags (or `*`), and the store lets it through exactly when the document is absent, or present with one of the tags |
| PresentationKeys.AdmittedIff | internal/iiif/presentation/v3/handler/handler.go:238-271 | a write is admitted exactly when one field is blank and the other says `*` or, for a replace, a list of strong tags (text in quotation marks without quotation marks or line ends); it is told to state a condition exactly when both are blank |
| PresentationKeys.TagListsReplace | internal/iiif/presentation/v3/handler/handler.go:238-271 | a put naming the tags of some bodies, in a list with any white space, is admitted, replaces the document exactly when its body is one of them, and otherwise changes nothing |
| PresentationKeys.ListsReadBack | internal/iiif/presentation/v3/store/store.go:51-63 | a list of tags is read as its members, whatever white space stands around them |
| ImageRequests.CanonicalRoundTrip | internal/iiif/image/v3/handler/handler.go:586-644 | parsing the canonical URL of any valid image request gives that request |
| ImageRequests.AnyEncodingParses | internal/iiif/image/v3/parse/parse.go:170-241 | a request parses the same however its parts are percent-encoded, identifiers with raw slashes included |
| ImageRequests.ReencodedRoundTrip | internal/iiif/image/v3/handler/handler.go:586-596 | the canonical URL still means the same request after it was decoded and encoded again as a whole path |
| ImageRequests.ParsedPrintsBack | internal/iiif/image/v3/parse/parse.go:137-216 | whatever was parsed prints to a URL that parses to the same request, so printing is idempotent |
| ImageRequests.BaseRedirectsToItsInfo | internal/iiif/image/v3/handler/handler.go:131-133 | a base request is redirected to the info request of the same identifier |
| ImageRequests.AnyInfoParses | internal/iiif/image/v3/parse/parse.go:143-150 | an info request is recognised however its identifier is percent-encoded, raw slashes included |
| ImageRequests.AnyBaseParses | internal/iiif/image/v3/parse/parse.go:163-168 | a bare identifier without raw slashes is a base request |
| ImageRequests.KindFollowsShape | internal/iiif/image/v3/parse/parse.go:143-168 | which kind of request a path is follows from the number of its segments and the last of them |
| ImageRequests.ParsedIsValid | internal/iiif/image/v3/parse/parse.go:137-406 | every accepted request has a non-empty identifier without control characters, and numbers, sizes, rotation, quality and format within their limits |
| ImageRequests.ImageGrammar | internal/iiif/image/v3/parse/parse.go:137-216 | a path means an image request exactly when, after an optional slash, it is five percent-encoded parts, only the first of which may hold slashes, that say that request in the grammar, and its values are within the limits |
| ImageRequests.RegionGrammar | internal/iiif/image/v3/parse/parse.go:243-279 | a region is accepted exactly when the text is `full`, `square`, or four numbers with commas between them that are x, y, w and h in this order, after `pct:` for percentages, within the limits |
| ImageRequests.SizeGrammar | internal/iiif/image/v3/parse/parse.go:281-371 | a size is accepted exactly when the text says it in one of the six forms, after `^` for upscaling, within the limits: the width is before the comma, the height after it |
| ImageRequests.RotationGrammar | internal/iiif/image/v3/parse/parse.go:373-390 | a rotation is accepted exactly when the text is a number from 0 to 360, after `!` for a mirrored one |
| ImageRequests.QualityFormatGrammar | internal/iiif/image/v3/parse/parse.go:195-216 | quality and format are accepted exactly when they are known, with a point between them |
| ImageRequests.RegionRoundTrip | internal/iiif/image/v3/parse/parse.go:243-279 | a printed valid region reads back, with any printer whose numbers read back |
| ImageRequests.SizeRoundTrip | internal/iiif/image/v3/parse/parse.go:281-371 | a printed valid size reads back |
| ImageRequests.RotationRoundTrip | internal/iiif/image/v3/parse/parse.go:373-390 | a printed valid rotation reads back, mirrored or not |
| ImageRequests.QualityFormatRoundTrip | internal/iiif/image/v3/parse/parse.go:195-216 | quality and format are split at the last point and read back |
| ImageParsing.ReadRegion | internal/iiif/image/v3/parse/parse.go:243-279 | the loop that fills the array of numbers reads exactly the region of the grammar |
| ImageParsing.ReadImage | internal/iiif/image/v3/parse/parse.go:170-216 | decoding the last four segments in place reads exactly the request of the grammar and leaves the identifier's segments alone |
| PercentEncoding.EscapeRoundTrip | internal/iiif/image/v3/handler/handler.go:594-596 | decoding undoes encoding, for each set of escaped characters |
| PercentEncoding.EscapesDecode | internal/iiif/image/v3/parse/parse.go:218-241 | an escape of any byte, with hex digits in either case, decodes to that byte |
| PercentEncoding.PlainDecodes | internal/iiif/image/v3/parse/parse.go:218-241 | any other character stands for itself |
| PercentEncoding.DecodesIffWellFormed | internal/iiif/image/v3/parse/parse.go:218-241 | what decodes is exactly the text whose every percent sign has two hex digits after it |
| PercentEncoding.EscapeIdentifierIsEscape | internal/iiif/image/v3/handler/handler.go:594-596 | escaping colons afterwards is path escaping with the colon among the escaped characters |
| Decimals.FormatFRoundTrip | internal/iiif/image/v3/handler/handler.go:642-644 | a number printed without exponent parses to itself |
| Decimals.FormatGRoundTrip | internal/cache/format.go:5-7 | a number printed with or without exponent parses to itself |
| Decimals.DecimalReads | internal/iiif/image/v3/parse/parse.go:259-266 | a sign or none, digits with a point anywhere or nowhere, and an exponent after `e` or `E` or none are read as the number they spell |
| Decimals.OnlyDecimalsRead | internal/iiif/image/v3/parse/parse.go:259-266 | and nothing else is read |
| Decimals.NormalizeKeepsValue | internal/iiif/image/v3/parse/parse.go:259-266 | the one form a number is kept in has the same value |
| Decimals.ItoaRoundTrip | internal/iiif/image/v3/parse/parse.go:359-371 | an integer's decimal form parses to itself |
| DerivativeKeys.FormatInt64 | internal/cache/keys.go:58-78 | the 20-byte buffer suffices for every int64 and the result is the decimal form exactly unless the number is the least int64, which prints as a bare sign |
| DerivativeKeys.FtoaPrints | internal/cache/keys.go:80-87 | what is printed for a parsed number reads back as it, up to the sign of zero |
| DerivativeKeys.ReadsBack | internal/cache/keys.go:7-55 | the request is recovered from its key, whatever slashes its identifier holds, up to signs of zeros |
| DerivativeKeys.SameKeyIffSameRequest | internal/cache/keys.go:7-13 | two requests share a key exactly when they differ at most in signs of zeros |
| DerivativeKeys.KeysMeetExactly | internal/iiif/image/v3/handler/handler.go:204-213 | for any source versions, exactly when two composed keys are equal: same request and versions, or a version spelling out the other's invalidation, or an identifier spelling out the other's request and the beginning of its version |
| DerivativeKeys.KeyDeterminesTuple | internal/iiif/image/v3/handler/handler.go:204-213 | so for versions without `#` the composed key determines request, source version and invalidation, and conversely |
| DerivativeKeys.SameRequestKeys | internal/iiif/image/v3/handler/handler.go:204-213 | and for one request and any source versions, keys meet exactly when the versions do or one spells out the other's invalidation |
| DerivativeKeys.MetaVersionDetermines | internal/iiif/image/v3/handler/handler.go:651-661 | without a version of its own, a source's size and time are its version, distinct for distinct values, free of `#` and unlike a marker; any two sources are compared by `SourceVersionsMeet` |
| DerivativeKeys.SourceVersionsMeet | internal/iiif/image/v3/handler/handler.go:651-661 | for any two states of a source the versions are equal exactly when both have one of their own and it is the same up to surrounding white space, or neither has and size and time are the same, or one spells out the other's size and time; there is none exactly when nothing identifies the source |
| DerivativeKeys.SourceKeysMeet | internal/iiif/image/v3/handler/handler.go:204-213 | exactly when the keys of two requests, sources and invalidations are equal |
| DerivativeKeys.KeyFollowsTheSource | internal/iiif/image/v3/handler/handler.go:204-213 | for one request and one invalidation the key changes exactly when the source does |
| DerivativeKeys.MarkersAreDistinct | internal/iiif/image/v3/handler/handler.go:663-665 | each identifier has its own marker key |
| DerivativeKeys.MarkerCollision | internal/iiif/image/v3/handler/handler.go:651-665 | a derivative's key is a marker's exactly when its last version ends in `/cache/invalidation` |
| CacheFiles.FileStore.Get | internal/cache/file.go:93-132 | answers a payload whose age is within the limit, with its content type where one is kept, and misses otherwise |
| CacheFiles.FileStore.Put | internal/cache/file.go:135-181 | on success every later lookup of the key answers the new value until exactly the age limit has passed, on failure the old one or none; other keys answer as before and no temporary file stays |
| CacheFiles.FileStore.Delete | internal/cache/file.go:184-191 | the key no longer hits, exactly unless the files it needs could not be removed, which is ignored; every other key answers as before |
| CacheFiles.FileStore.Cleanup | internal/cache/file.go:204-257 | removes exactly the expired payloads met so far and their `.meta` files, and reports true counts and sizes, also when cut short or when removals fail |
| CacheFiles.CleanupIsInvisible | internal/cache/file.go:204-261 | from the pass on every lookup answers the same with it as without it, exactly unless an undecodable `.meta` file went with its expired payload |
| CacheFiles.CleanupConserves | internal/cache/file.go:229-252 | when removals succeed, payloads scanned are those left plus those removed, and so are their bytes |
| CacheFiles.InstalledAnswers | internal/cache/file.go:166-181 | replacing the files of one key changes the answers for that key only |
| CacheFiles.PathsAreApart | internal/cache/file.go:193-200 | distinct keys have distinct files, and no payload is another key's `.meta` file |
| CacheFiles.ExpiredForGood | internal/cache/file.go:259-261 | what has expired stays expired, and so has everything stored earlier |
| CacheFiles.AgeDecides | internal/cache/file.go:259-261 | something expires exactly when there is a limit and its age exceeds it; saturation matters to the greatest limit only |
| CacheFiles.CleanupLeavesTheFresh | internal/cache/file.go:204-257 | a complete pass leaves exactly the payloads within the age limit, as they are |
| CacheFiles.CountIsCardinality | internal/cache/file.go:219-252 | counting along the walk counts each file once |
| Invalidations.InvalidationHidesOlderEntries | internal/iiif/image/v3/handler/handler.go:204-241 | in every interleaving, with source versions that end neither like a marker key nor in an invalidation's suffix (all versions without `#` and not ending in `/cache/invalidation`), no request begun after an invalidation of its identifier is answered from an entry stored before it, through cleanups and past the marker's own expiry; while the marker lives, not even from one begun before it |
| Invalidations.OldTagMatchesIffMarkerExpired | internal/iiif/image/v3/handler/handler.go:204-218 | after an invalidation the tag the image had before its first one matches exactly once the marker has expired |
| Invalidations.LateStoreOutlivesItsMarker | internal/iiif/image/v3/handler/handler.go:204-241 | a concrete run in which a derivative begun before an invalidation and stored late answers a request from after it, once the marker is gone |
| Invalidations.HarmlessIffTolerable | internal/iiif/image/v3/handler/handler.go:204-241 | among runs whose other source versions meet the premise, a version can have a later request answered from an older entry if and only if it ends like a marker key, or in the suffix of some invalidation after a version that meets the premise |
| Invalidations.TolerableIsHarmless | internal/iiif/image/v3/handler/handler.go:204-241 | one odd version of any other form leaves the theorem true in every run |
| Invalidations.ForgedVersionsDefeatInvalidation | internal/iiif/image/v3/handler/handler.go:204-213 | a version that adds the suffix of an invalidation, drawn at any moment, to one that meets the premise gives an older entry that invalidation's key, and a run hits it |
| Invalidations.MarkerVersionsDefeatInvalidation | internal/iiif/image/v3/handler/handler.go:651-665 | a version that ends like a marker key stores over the marker of another identifier, and a run then hits an entry older than that identifier's invalidation |
| Invalidations.TolerableNotForeign | internal/iiif/image/v3/handler/handler.go:204-213 | a version can fail the premise and still be harmless |
| Invalidations.PlainVersionsAreForeign | internal/iiif/image/v3/handler/handler.go:651-661 | every version without `#` that does not end like a marker key meets the premise |
| Invalidations.HitIsLater | internal/iiif/image/v3/handler/handler.go:220-241 | the step behind the theorem: a hit is stored after every invalidation the request came after |
| Invalidations.HitsAnswerTheLastWrite | internal/iiif/image/v3/handler/handler.go:220-241 | in every run a request that looks its key up is answered from the cache exactly when what a request or an invalidation last wrote under that key has not expired, and with just that |
| Invalidations.CacheHoldsTheLastWrite | internal/iiif/image/v3/handler/handler.go:220-241 | in every run the cache holds under a key what was last written under it, until that has expired |
| Invalidations.ReadLearns | internal/iiif/image/v3/handler/handler.go:559-578 | a request that reads the marker learns of every invalidation that has not expired |
| Invalidations.MarkersStep | internal/iiif/image/v3/handler/handler.go:447-448 | in every step the marker stays at least as recent as each unexpired invalidation |
| Invalidations.EntriesStep | internal/iiif/image/v3/handler/handler.go:204-241 | in every step an entry under an invalidation's key is younger than the invalidation, unless an odd version made the key |
| Invalidations.TraceOfKey | internal/iiif/image/v3/handler/handler.go:204-209 | a key ends in an invalidation's suffix exactly when it was composed with it, or with none and a version that ends in it |
| Invalidations.CleanupRefines | internal/cache/file.go:204-257 | on the files a cleanup pass is no step of the cache, wherever it stops and whatever it fails to remove |
| Invalidations.PutRefines | internal/cache/file.go:135-181 | on the files a successful put is the cache's store |
| MetaCache.MetaCaching.Get | internal/storage/meta_cache.go:60-75 | answers an entry no older than the TTL and drops an older one |
| MetaCache.MetaCaching.Store | internal/storage/meta_cache.go:77-105 | never exceeds the maximum; what goes to make room is an oldest entry, unless the empty identifier's alone is oldest |
| MetaCache.MetaCaching.Meta | internal/storage/meta_cache.go:38-58 | a call by itself answers only what the inner source gives now or gave for this identifier within the TTL |
| MetaCacheRuns.AnswersAreGiven | internal/storage/meta_cache.go:26-98 | in every interleaving of callers, lookups, inner answers and stores, a caller is answered with what the inner source gave for its identifier, to it or to one that stored it within the TTL |
| MetaCacheRuns.NeverMoreThanMax | internal/storage/meta_cache.go:77-105 | in every interleaving the cache never exceeds its maximum |
| MetaCache.ScanIsRightUnlessEmptyIsAlone | internal/storage/meta_cache.go:86-95 | for every order of ranging the scan ends at an oldest entry, exactly unless the empty identifier alone is oldest |
| Refreshing.OneRefreshPerIdentifier | internal/storage/caching.go:127-151 | at most one background refresh is under way for an identifier |
| Refreshing.StaleHitsStartWhenIdle | internal/storage/caching.go:127-151 | a stale hit starts a refresh exactly when none is under way |
| Refreshing.StoreHoldsWhatWasOpened | internal/storage/caching.go:36-78 | in every interleaving of refreshes and of callers between opening and storing, what is stored for an identifier the inner source gave for it |
| Refreshing.StoreHoldsTheLastPut | internal/storage/caching.go:36-160 | in every interleaving the store holds for an identifier exactly what a refresh or a caller last put for it, and nothing only if nothing was put |
| Refreshing.RefreshList.StartRefresh | internal/storage/caching.go:127-138 | registers the identifier and says whether to start a goroutine |
| Geometry.ResolveRegion | internal/iiif/image/v3/pipeline/pipeline.go:555-590 | an accepted pixel region within the source is exactly the source's pixels between the whole parts of x and x+w, and of y and y+h; in percent each edge and length is its percentage of its own side to the nearest pixel; `full` is the source. An accepted region is clipped so if and only if its far edges are int64 values; which regions are refused is exact for all |
| Geometry.AsksExactly | internal/iiif/image/v3/pipeline/pipeline.go:555-573 | the rectangle worked with before clipping is the one the region means, and no other is |
| Geometry.RegularIsRefusedIffEmpty | internal/iiif/image/v3/pipeline/pipeline.go:577-588 | a region with int64 edges is refused exactly when it shares no pixel with the source |
| Geometry.SquareIsCentred | internal/iiif/image/v3/pipeline/pipeline.go:559-564 | the square is as large as fits and centred to within a pixel |
| Geometry.PercentRegionsConvert | internal/iiif/image/v3/pipeline/pipeline.go:568-573 | percent regions never exceed the source's sides and never overflow |
| Geometry.SizeIsSane | internal/iiif/image/v3/pipeline/pipeline.go:592-644 | both output sides are at least 1, and without `^` neither exceeds the region |
| Geometry.UpscaleOnlyLiftsALimit | internal/iiif/image/v3/pipeline/pipeline.go:592-637 | `^` changes no answer, only which are refused: those exceeding the region, and percentages over 100 |
| Geometry.BestFitIsBest | internal/iiif/image/v3/pipeline/pipeline.go:623-634 | a best fit lies within its bounds, meets one exactly, and has the other side the exact aspect value rounded to nearest, or 1 |
| Geometry.OneSideKeepsAspect | internal/iiif/image/v3/pipeline/pipeline.go:596-617 | a side that is not given is the exact proportional value rounded to nearest, or 1 |
| Geometry.NamedSizesAreExact | internal/iiif/image/v3/pipeline/pipeline.go:592-637 | `max` is the region itself, and `w,h` exactly that, in this order |
| Geometry.SourceFitsIsArea | internal/iiif/image/v3/pipeline/pipeline.go:647-658 | dividing instead of multiplying decides exactly whether the area is within the limit |
| Geometry.OutputTestIsExact | internal/iiif/image/v3/pipeline/pipeline.go:159-161 | the test refuses exactly the areas over the limit, for every limit, if and only if the true area is an int64 |
| Geometry.OutputFitsIsArea | internal/iiif/image/v3/pipeline/pipeline.go:159-161 | so it is exact for parsed sizes, aspect up to 9,000,000:1 and area up to 9·10^14 |
| Geometry.AreaBound | internal/iiif/image/v3/parse/parse.go:17-20 | within those bounds the output area is at most 9·10^18 |
| Geometry.NarrowRegionsOverflow | internal/iiif/image/v3/pipeline/pipeline.go:159-161 | a region of 1 by 10,000,000 pixels at width 1,000,000 passes any limit with 10^19 pixels |
| Geometry.ChooseJP2Page | internal/iiif/image/v3/pipeline/pipeline.go:706-722 | the chosen page is the greatest that is no smaller than the output in both directions, or 0 |
| Geometry.SpanCovers | internal/iiif/image/v3/pipeline/pipeline.go:724-747 | a span maps to a non-empty one on the page that contains its exact image, overshoots by less than a pixel at each end, and meets no clamp |
| Geometry.SpanIsLongEnough | internal/iiif/image/v3/pipeline/pipeline.go:706-737 | on a page of at least 1/2^p of the full side, a span of 2^p times the output keeps as many pixels as the output |
| Geometry.CropOfPage | internal/iiif/image/v3/pipeline/pipeline.go:724-737 | page choice and rectangle mapping compose: the crop lies on the page, covers the region's image and is at least the output |
| Geometry.MakePlan | internal/iiif/image/v3/pipeline/pipeline.go:146-190 | from request to crop: which requests are refused; the crop covers exactly the clipped region if and only if the region's far edges are int64 values, lies on the loaded page, which is the smallest that is no smaller than the output, and then scaling never enlarges unless `^` allows it on the full image |
| Geometry.RoundDivSpec | internal/iiif/image/v3/pipeline/pipeline.go:568-573 | rounding is to nearest with halves up, and nothing else is |
| PDF.SingleImagePDF | internal/iiif/image/v3/pipeline/pipeline.go:766-803 | the buffered writer produces exactly the file |
| PDF.WriteSingleImagePDF | internal/iiif/image/v3/pipeline/encode_file.go:170-233 | the streaming writer succeeds exactly when there is space and the reader does not fail, having written exactly the file; otherwise what it wrote is its beginning |
| PDF.CountingWriter.Write | internal/iiif/image/v3/pipeline/encode_file.go:235-244 | the counter is the number of bytes that arrived, also after a partial write |
| PDF.WriteObject | internal/iiif/image/v3/pipeline/encode_file.go:177-186 | the recorded offset is where the object starts, and the object follows |
| PDF.WritersAgree | internal/iiif/image/v3/pipeline/encode_file.go:170-233 | the two writers' files are identical exactly when the announced JPEG length is the true one |
| PDF.ReadObjectOf | internal/iiif/image/v3/pipeline/pipeline.go:774-803 | following `startxref` and the 20-byte entries lands on the table and on each object |
| PDF.PictureReadsBack | internal/iiif/image/v3/pipeline/pipeline.go:786-789 | a reader that follows the table recovers width, height, colour space and the JPEG bytes |
| PDF.ContentReadsBack | internal/iiif/image/v3/pipeline/pipeline.go:790-793 | and the drawing operations, by their announced length |
| PDF.PageAndDrawingHaveItsSize | internal/iiif/image/v3/pipeline/pipeline.go:783-793 | a reader that follows the table finds in the page's media box the width and height of the picture, in this order, and in the matrix of the drawing the same |
| PDF.LineWidth | internal/iiif/image/v3/pipeline/pipeline.go:798-800 | an entry has 20 bytes exactly for offsets below 10^10 |
| RangeReader.ContentRangeRoundTrip | internal/storage/http.go:396-423 | the header of a valid range parses to that range |
| RangeReader.ParsedRangeIsValid | internal/storage/http.go:396-423 | whatever header is accepted names a range within its size |
| RangeReader.StepsAgree | internal/storage/http.go:480-611 | against an exact upstream each call behaves as on the in-memory reader, exactly except for an empty read at the end |
| RangeReader.RunsAgree | internal/storage/http.go:480-611 | any sequence of seeks and non-empty reads gives the same bytes, positions and errors |
| RangeReader.SeeksAreExact | internal/storage/http.go:496-513 | where a seek goes for each whence, and that it is refused exactly when that is negative or no int64, or for another whence |
| RangeReader.ReadsDeliverTheContent | internal/storage/http.go:487-494 | reads of any lengths deliver the content in order and without gaps as far as they ask; a read is told of the end exactly when everything was delivered before it, and of nothing else |
| RangeReader.DownloadsTheContent | internal/storage/http.go:536-592 | so a file read through ranges in pieces of any lengths arrives whole |
| RangeReader.OnlyExactReplies | internal/storage/http.go:536-592 | against any upstream bytes come only from a 206 naming exactly the requested range and size, never more than asked, and the position moves by what was delivered |
| RangeReader.SeekableBytes.Read | internal/storage/http.go:487-494 | fills the front of the buffer with the content at the position and leaves the rest of the buffer |
| RangeReader.SeekableBytes.Seek | internal/storage/http.go:496-513 | goes to the offset counted from the beginning, from the position or from the end by its whence; refuses and stays exactly when that is negative or no int64, or for another whence |
| RangeReader.HttpRangeReader.Read | internal/storage/http.go:536-592 | on an open reader takes the protocol's step into the buffer; on a closed one changes nothing |
| RangeReader.HttpRangeReader.Seek | internal/storage/http.go:594-611 | the same, counting the end from the announced size |

## Left out

- MariaDBStore: clients are programs of statement steps rather than methods, because any two statements of two clients may interleave; gap locks, deadlock detection and lock time-outs are one more fault a statement may report.
- Concurrent reads of the derivative cache while its files are being replaced: the cache's reads take no lock, so its operations are atomic in `Invalidations`; each operation's faults are modelled in `CacheFiles`.
- `os.Remove` failing right after a `.meta` file could not be written.
- `strconv.ParseFloat` on hexadecimal, `inf`, `nan` and underscored forms, float64 rounding and underflow: numbers are exact finite decimals and quotients. A conversion to int out of range gives the least int64, as on amd64.
- Geometry.ResolveSize: sides are not converted to int64, which matters only for a side over 9·10^12 pixels, as an unclipped region can have.
- Source versions in `Invalidations` are any non-empty text; those of the source are also free of surrounding white space.
- The text of `time.RFC3339Nano`: any injective stamp without `#` and `/` that fits the 256 bytes read back.
- The info cache cleared by an invalidation, token comparison and client address checks of the invalidation route.
- MetaCache.MetaCaching.Meta: one call by itself; `MetaCacheRuns` has the interleavings.
- `openLocal` and the choice among mappings, OCFL inventory lookup, prefix stripping, symlink containment and directory syncing.
- libvips: loading, colour, resampling, rotation and encoding; only widths, heights and page counts enter.
- HTTP transport, redirects, address blocking, header forwarding, CORS, logging and health checks.
- JSON schema validation of Presentation documents and `If-Modified-Since`.
- YAML configuration, limiter, routing: they would only add easy members.
