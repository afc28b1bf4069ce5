# Geo Foundry: editor codec, release protocol, serving runtime, URL registry and site compiler

Geo Foundry lets editors write pages, compiles a site into immutable objects, publishes them to an
object store behind a movable pointer, and serves them through a cached reader. This project models
the parts of it where a mistake loses content or serves the wrong release, and proves what those
parts promise. `dafny verify dfyconfig.toml` covers every file.

The system in five parts:

* **The block codec** (`Text`, `Json`, `JsonGrammar`, `MarkdownLines`, `LineBreaks`,
  `MarkdownPatterns`, `MarkdownBlocks`, `MarkdownTexts`, `MarkdownParser`, `MarkdownForms`,
  `MarkdownSteps`, `MarkdownRoundTrip`, `MarkdownDocuments`, `MarkdownNormalisation`,
  `MarkdownEnvelopes`). Characters,
  lines, the line patterns, the printer's guards, fences that outgrow their content, and the
  `:::gf-block` envelope around real JSON text. The parser is the loop of the source, proved equal to
  a recursive reading of the lines; printing and reading are then proved inverse exactly where guards
  and patterns agree. What each pattern matches, what the reader takes and what the printer writes are
  also said of the characters themselves, apart from the functions that compute them.
* **The release protocol** (`Documents`, `ReleaseStore`, `ReleasePlans`, `ReleaseSteps`,
  `ReleaseProtocol`, `ReleaseSafety`, `PublishRuns`, `PublishResume`, `PublishTraces`, `ReplayReceipts`,
  `UnmatchedPublish`, `SoloRuns`, `SoloOutcomes`, `ArtifactStores`, `StoreOperations`). Publish, rollback and routing publish are clients with a program counter over
  one store; each step is one store call; steps of any number of clients interleave and any client
  may stop for ever. The imperative operations are methods on an `ArtifactStore` object and are proved
  to be the uninterrupted runs of the same steps.
* **The serving runtime** (`LruCache`, `Runtime`, `HostChoice`, `RuntimeAnswers`, `RuntimeSteps`,
  `CacheAgreement`, `ResolveRuns`, `RuntimeService`, `ListedSites`, `Rejections`, `RejectedReleases`).
  Three TTL-LRU caches shared by interleaved requests, compared with a resolver that has none, whose
  every answer is said of the stored objects alone.
* **The compiler** (`Sorting`, `CanonicalJson`, `KeyOrder`, `Pagination`, `Breadcrumbs`,
  `RouteIndexing`, `RouteForms`, `SiteCompiler`, `CompiledContent`, `CompileResults`,
  `OrderIndependence`, `ReleasePlanning`, `PlanForms`, `SchemaForms`, `Served`): listing pages, route claims,
  canonical JSON, release plans, and the composition with the two parts above into "what is served is
  what was compiled".
* **The URL registry and the quota** (`RedirectGraph`, `UrlRegistry`, `UrlEffects`, `UrlErrors`,
  `RetiredTargets`, `PercentCoding`, `PathNormalization`, `PathText`, `Quota`).

Parameters with stated laws stand for what the code calls but does not define: NFC composition
(idempotent, identity on ASCII), `localeCompare` (a strict total order on pathnames), the renderers
and target resolver of the compiler (`Tools`: any functions), the hostname, locale and pathname
normalisers of the registry (any functions into an option). SHA-256 is a free constructor, so it is
injective and nothing else. The store hands out ETags; an ETag determines the pointer content it was
issued for, and may be reused for equal content (strong validators, section 8.8.3 of RFC 9110; the
conditions are those of sections 13.1.1 and 13.1.2).

## Where the code does not do what it, or its documentation, suggests

Each is kept as the code has it, shown by a lemma on concrete input, and bounded by the exact
condition under which the code does meet the expectation.

* Printer guards and reader patterns of the codec differ for a language that starts with a backtick,
  space or tab, a citation-less attribution `<x>`, an empty image source, non-string image fields, and
  U+2028 or U+2029 where a pattern's `.` must match: `MarkdownDocuments.RowRoundTrip` is an equivalence
  with the guard that would repair them; five lemmas of `MarkdownNormalisation` give the rows.
* The comment above `publishRelease` says an exact replay yields an identical receipt. The receipt of a
  rerun equals that of the publish before it if and only if the site already pointed to the release
  before both and the actor is the same (`ReplayReceipts.RerunReceipts`; a first publish is the input,
  `ReplayReceipts.FirstReceiptDiffers`).
* A replay reads the head of the pointer and its content in two requests. When another client moves the
  pointer to the release in between, the receipt carries the ETag of the earlier one:
  `ReplayReceipts.StaleReceipt` gives such a run on two concrete releases, from the empty store, and
  `ReplayReceipts.ReplayReceiptExact` says of every run that a replay receipt is genuine if and only if
  the site pointed to the release when its pointer was headed.
* `publishRelease` takes the verified reference beside the plan and does not compare the two. With another
  reference it points the site to a release that is not there: `UnmatchedPublish.CompleteOnlyWhenMatched`
  is an equivalence. The safety results are about publishes that pass the plan's own, as the worker does.
* `resolve` returns the promise of `notFound` without awaiting it inside its `try`, so a failure while
  loading the 404 page rejects instead of giving 503 (outcome `Rejected`).
  `RejectedReleases.UnlistedPageRejects` gives a release and a request; `Rejections.RejectedExact` and
  `Rejections.ThrowRejects` say exactly when, and `RejectedReleases.DeployedNeverRejects` that it does not
  happen to an uninterrupted request for a compiled release.
* Planning accepts a compiler version whose major number is written with leading zeros, and rollback
  wants the text to start with `1.`: `ReleasePlanning.RollbackCompilerCheck` says when they agree.
* `markUrlGone` does not revalidate the redirect graph: retiring a redirect's target leaves a redirect
  to a dead page and makes every later rename in that registry fail, whatever is done in between.
  `RetiredTargets.DeadRedirectHappens` is a run from a new registry, `RetiredTargets.DeadExactly` says
  which runs do it, and `UrlEffects.RenameExact` has the consequence for renames in its equivalence. A
  redirect's target itself can never be renamed (`UrlRegistry.TargetCannotMove`, part of the same).
* A normalised pathname is not always accepted again: `/%25%32f` becomes `/%252f`, which is refused
  (`PathNormalization.UnstablePath`, with `PathNormalization.StableExact` for all inputs).
* Breadcrumbs that the compiler emits at `/` do not pass the renderer's validation; at every other
  normalised pathname they do (`Breadcrumbs.ArticleBreadcrumbsValid`, `Breadcrumbs.ListingBreadcrumbsValid`).
* `canonicalJson` of an array that holds one `undefined` item and nothing else is that of the empty array
  (`CanonicalJson.LoneUndefinedIsLost`). Beside other items `undefined` leaves an empty slot and is told
  apart: two values have equal texts if and only if they are the same data once those arrays are emptied
  (`CanonicalJson.EqualTextsExact`).

## Model

| member | source | states |
|---|---|---|
| MarkdownDocuments.RowRoundTrip | apps/cms/src/editor/block-markdown.ts:367-470 | for every list of JSON rows, printing and reading returns every row in order, readable ones without only storage noise and protected ones exactly, if and only if no row is one that guards and patterns disagree about |
| MarkdownRoundTrip.FaithfulReads | apps/cms/src/editor/block-markdown.ts:204-281 | a row on which guards and patterns agree is read back, using up exactly its printed lines, whatever block follows |
| MarkdownRoundTrip.UnfaithfulReads | apps/cms/src/editor/block-markdown.ts:97-193 | any other row is read back as something that does not keep its content |
| MarkdownSteps.BlockReads | apps/cms/src/editor/block-markdown.ts:204-267 | each of the six readable kinds is one segment for the reader and comes back as the same block |
| MarkdownSteps.ProtectedReads | apps/cms/src/editor/block-markdown.ts:269-308 | a row in its JSON envelope is one segment and comes back exactly, key order included |
| MarkdownSteps.FenceIsLonger | apps/cms/src/editor/block-markdown.ts:63-67 | the printed fence has at least three backticks and more than any backtick run anywhere in the code |
| MarkdownBlocks.FenceTicksOf | apps/cms/src/editor/block-markdown.ts:63-67 | the loop over backtick runs computes the fence length used by the printer's specification |
| MarkdownNormalisation.TextNormalisation | apps/cms/src/editor/block-markdown.ts:367-470 | for every text without an envelope opening, reading what was printed from its rows gives the same rows if and only if no row is code in a language starting with a backtick; unclosed fences, lazy paragraphs and multi-line quotes included |
| MarkdownNormalisation.PlainTextNormalisation | apps/cms/src/editor/block-markdown.ts:367-470 | the same as a condition on the text: no envelope opening and no fence line whose language starts with a backtick |
| MarkdownEnvelopes.AnyTextNormalisation | apps/cms/src/editor/block-markdown.ts:285-470 | for every text, envelopes included, reading, printing and reading keeps every row (up to storage noise) if and only if guards and patterns agree about all its rows, and then a second round changes nothing |
| MarkdownEnvelopes.ParsedIsJson | apps/cms/src/editor/block-markdown.ts:285-308 | whatever an envelope holds, parsing gives a JSON value: no key twice in an object, a later member winning |
| MarkdownNormalisation.OneRowRoundTrip | apps/cms/src/editor/block-markdown.ts:204-267 | a readable block on its own survives printing and reading if and only if it agrees with the patterns |
| MarkdownNormalisation.FenceLanguageIsLost | apps/cms/src/editor/block-markdown.ts:173-193 | languages starting with a backtick, space or tab pass the guard and do not come back |
| MarkdownNormalisation.AngleAttributionIsLost | apps/cms/src/editor/block-markdown.ts:117-136 | an attribution `<x>` without a citation passes the guard and comes back as a citation |
| MarkdownNormalisation.EmptySourceIsLost | apps/cms/src/editor/block-markdown.ts:154-171 | an image with an empty source passes the guard and does not come back |
| MarkdownNormalisation.NumericCaptionIsLost | apps/cms/src/editor/block-markdown.ts:154-171 | a numeric image caption passes the guard and is dropped |
| MarkdownNormalisation.LineSeparatorIsLost | apps/cms/src/editor/block-markdown.ts:58-87 | U+2028 and U+2029 pass the line-break guard and break headings, quotes, list items and code captions |
| MarkdownParser.MarkdownToBlocks | apps/cms/src/editor/block-markdown.ts:367-457 | the index-driven loop returns exactly the rows of the recursive reading, for every text; so for every list of lines of which the text is made with LF, CR or CR LF between them, the rows of those lines |
| LineBreaks.LinesExact | apps/cms/src/editor/block-markdown.ts:371 | a text is split into these lines if and only if it is the lines, free of CR and LF, with an LF, a CR or a CR LF between any two of them |
| MarkdownParser.BreaksDoNotMatter | apps/cms/src/editor/block-markdown.ts:371 | two texts made of the same lines with any choice of line breaks give the same rows |
| MarkdownParser.SegmentAt | apps/cms/src/editor/block-markdown.ts:375-451 | one turn of the loop takes the segment the specification takes, and at least one line |
| MarkdownParser.PlainSegmentAt | apps/cms/src/editor/block-markdown.ts:396-450 | the same for headings, images, quotes, lists and paragraphs |
| MarkdownParser.ProtectedSegmentAt | apps/cms/src/editor/block-markdown.ts:285-308 | finds the first closing line and falls back to a paragraph when the envelope is unclosed or not an object |
| MarkdownParser.FencedCodeSegmentAt | apps/cms/src/editor/block-markdown.ts:310-340 | finds the first closing fence that is long enough, takes the caption line after it, and keeps the rest of an unclosed fence |
| MarkdownParser.QuoteLinesAt | apps/cms/src/editor/block-markdown.ts:419-431 | collects the longest run of quote lines |
| MarkdownParser.ListItemsAt | apps/cms/src/editor/block-markdown.ts:433-445 | collects the longest run of items of one list style |
| MarkdownForms.StepForm | apps/cms/src/editor/block-markdown.ts:375-451 | what one turn takes, said of the lines as written: which kind they start, how many lines, and every entry of the row |
| MarkdownForms.ProtectedForm | apps/cms/src/editor/block-markdown.ts:285-308 | an envelope runs to the first closing line; its row is the parsed object, or a paragraph of its lines |
| MarkdownForms.CodeForm | apps/cms/src/editor/block-markdown.ts:310-340 | a fenced block runs to the first line of at least as many backticks, takes the caption line after it, and is a paragraph of all lines when unclosed |
| MarkdownForms.QuoteForm | apps/cms/src/editor/block-markdown.ts:342-365 | a quote with a last line after an em dash has its citation alone in angles, or a name and a citation, or a name; else its text is all its lines |
| MarkdownPatterns.OpeningExact | apps/cms/src/editor/block-markdown.ts:46-47 | the envelope opening is the mark and then only tabs and spaces |
| MarkdownPatterns.ClosingExact | apps/cms/src/editor/block-markdown.ts:49 | the envelope closing is three colons and then only tabs and spaces |
| MarkdownPatterns.FenceClosingExact | apps/cms/src/editor/block-markdown.ts:54-55 | a fence is closed by at least as many backticks and then only tabs and spaces |
| MarkdownPatterns.FenceOpeningExact | apps/cms/src/editor/block-markdown.ts:57-60 | a fence opens with all its backticks, at least three; the language is what follows the tabs and spaces after them, on one line |
| MarkdownPatterns.ImageExact | apps/cms/src/editor/block-markdown.ts:69-72 | an image line is put together from an alt text without brackets, a non-empty source without white space or parentheses, and an optional caption without quotes |
| MarkdownPatterns.HeadingExact | apps/cms/src/editor/block-markdown.ts:74 | a heading is two to six hashes, one tab or space, and the rest of the line |
| MarkdownPatterns.QuoteExact | apps/cms/src/editor/block-markdown.ts:76-79 | a quote line is the mark, at most one tab or space, and the rest of the line |
| MarkdownPatterns.ItemExact | apps/cms/src/editor/block-markdown.ts:81-87 | an item is a dash, an asterisk, or a numeral and a dot, then one tab or space and the rest of the line |
| MarkdownPatterns.CaptionExact | apps/cms/src/editor/block-markdown.ts:323 | a caption line is one line between two asterisks |
| MarkdownPatterns.BareExact | apps/cms/src/editor/block-markdown.ts:350 | a bare citation is text without angles, in angles |
| MarkdownPatterns.NamedExact | apps/cms/src/editor/block-markdown.ts:354 | a named citation is a name on one line, a space, and text without angles in the last angles |
| MarkdownPatterns.StartExact | apps/cms/src/editor/block-markdown.ts:89-95 | a line starts a block if and only if it has one of these six forms |
| MarkdownTexts.ReadableExact | apps/cms/src/editor/block-markdown.ts:97-193 | a row is shown readably if and only if its entries are those of one of the six kinds, and then with this content: the guards, said of the entries |
| MarkdownTexts.TextExact | apps/cms/src/editor/block-markdown.ts:195-267 | the text of each kind, character by character |
| MarkdownTexts.FenceLength | apps/cms/src/editor/block-markdown.ts:62-67 | the fence is the shortest of at least three backticks that is longer than every run of backticks in the code |
| MarkdownTexts.RowTextExact | apps/cms/src/editor/block-markdown.ts:269-281 | a row is printed as its readable text, or as its JSON text in an envelope; anything else prints nothing |
| MarkdownTexts.DocumentAdd | apps/cms/src/editor/block-markdown.ts:459-470 | one value more adds its text after an empty line, or nothing |
| Json.ParseStringify | apps/cms/src/editor/block-markdown.ts:269-308 | JSON text of any JSON value with integer numbers parses back to that value, key order included |
| JsonGrammar.ParseExact | apps/cms/src/editor/block-markdown.ts:285-308 | parsing gives a value if and only if the text is one of that value in the grammar of RFC 8259, with integer numbers: white space, escapes and surrogate pairs included |
| JsonGrammar.QuoteForm | apps/cms/src/editor/block-markdown.ts:269-272 | a printed string is its characters, each quoted as ECMA-262 has it, between quotes |
| JsonGrammar.ArrayAdd | apps/cms/src/editor/block-markdown.ts:269-272 | a printed array, item by item: commas and no white space, and an undefined item is null |
| JsonGrammar.ObjectAdd | apps/cms/src/editor/block-markdown.ts:269-272 | a printed object, property by property: no white space, and an undefined property is left out |
| Json.StringifyPrintable | apps/cms/src/editor/block-markdown.ts:269-272 | that text has no control characters, so an envelope's payload is one line |
| CanonicalJson.CanonicalForm | packages/compiler/src/canonical.ts:2-15 | two values in which no array is exactly one undefined item have the same canonical text if and only if they are equal up to key order and undefined properties; undefined items beside others included |
| CanonicalJson.EqualTextsExact | packages/compiler/src/canonical.ts:2-15 | any two values have the same text if and only if they are the same data after every array of exactly one undefined item is emptied |
| CanonicalJson.TextApart | packages/compiler/src/canonical.ts:2-15 | unique decodability, empty slots included: two texts with what may follow them agree only for the same value and the same rest |
| CanonicalJson.CanonicalReadBack | packages/compiler/src/canonical.ts:2-15 | the text of a value whose arrays hold no undefined item is JSON: parsing it gives the value with the entries of every object arranged, which is the same data; that arranged keys increase is `KeyOrder.CanonicalKeysIncrease` |
| KeyOrder.CanonicalKeysIncrease | packages/compiler/src/canonical.ts:6-13 | parsing the text gives the same data, and at every depth the keys increase in the order of their UTF-16 code units |
| CanonicalJson.ArrangedTwice | packages/compiler/src/canonical.ts:6-13 | putting keys in order and dropping undefined properties is idempotent at every depth |
| CanonicalJson.LoneUndefinedIsLost | packages/compiler/src/canonical.ts:3-5 | an array of one undefined item has the text of the empty array, and `[undefined, null]` does not have that of `[null]` |
| Sorting.SortPermutation | packages/compiler/src/compile/pipeline.ts:94-96 | sorting by distinct keys with a strict total order forgets the order of its input |
| Sorting.UnitLessIsOrder | packages/compiler/src/canonical.ts:6-13 | the comparison that sorting uses is a strict total order on strings, also outside the basic plane; that it is the one by UTF-16 code units is `KeyOrder.UnitLessExact` |
| KeyOrder.UnitLessExact | packages/compiler/src/canonical.ts:6-13 | a string sorts before another if and only if its UTF-16 code units do: at the first difference, or as a proper prefix |
| ReleaseSafety.CompletePointerSafety | packages/publisher/src/publish.ts:97-222 | in every run of rollbacks, routing publishes and publishes that pass the verified reference of their plan, every value a site pointer ever had names a release whose manifest and listed objects are stored with the listed sizes and hashes, then and after any continuation, and pointer histories only grow |
| ReleaseSafety.ObjectsAreImmutable | packages/publisher/src/s3-artifact-store.ts:97-128 | no step of any client changes or removes a stored object |
| ReleaseSafety.RollbackNeverLosesUpdate | packages/publisher/src/rollback.ts:67-123 | when a rollback's swap succeeds under interleaving, the pointer just before named the expected release and manifest, and just after names the target |
| ReleaseSafety.PublishReceiptsAreEdges | packages/publisher/src/publish.ts:192-239 | a publish receipt names a consecutive old-to-new edge of the history, or is a replay whose reported pointer names the release and was current at the time of its ETag or later; and its release is complete |
| ReleaseSafety.RollbackReceiptsAreEdges | packages/publisher/src/rollback.ts:33-124 | a rollback receipt is a replay or a consecutive edge of the pointer history |
| ReplayReceipts.ReplayReceiptExact | packages/publisher/src/publish.ts:178-212 | in every run, a replay receipt carries the ETag its publish headed, and some pointer with that ETag names the release if and only if the one headed did |
| ReplayReceipts.ReplayCanReportAnEarlierPointer | packages/publisher/src/publish.ts:178-212 | for any two releases of a site there is a run from the empty store that ends with a replay receipt for the second whose ETag belongs to a pointer to the first only |
| ReplayReceipts.StaleReceipt | packages/publisher/src/publish.ts:193-212 | such a run on two concrete releases |
| ReplayReceipts.RerunReceipts | packages/publisher/src/publish.ts:79-87 | the receipts of a publish and of its rerun are equal if and only if the site pointed to the release before both and the actors are the same |
| ReplayReceipts.FirstReceiptDiffers | packages/publisher/src/publish.ts:79-87 | the receipt of a first publish of a concrete release differs from that of its rerun |
| ReplayReceipts.NamedIsStored | packages/publisher/src/publish.ts:193-199 | a site that points to a release of a sound store has everything its plan would upload |
| UnmatchedPublish.CompleteOnlyWhenMatched | packages/publisher/src/publish.ts:88-92 | from the empty store a publish sets its pointer with any verified reference, and what it points to is complete if and only if the reference is that of the plan |
| ReleaseSafety.RoutingSafety | packages/publisher/src/routing-publish.ts:214-270 | every routing pointer ever published names a stored manifest with its hash, and each site listed for it has, from then on, a pointer to a complete release |
| ListedSites.ListedSitesLoad | packages/runtime/src/index.ts:366-427 | in every reachable state and for every site a routing publish listed, the routing manifest, the site pointer, the manifest it names and every object that lists pass the checks of the reader |
| ListedSites.ListedHostsAnswer | packages/runtime/src/index.ts:490-503 | a request for a host, canonical or alias, that the table of the routing publish lists for such a site never fails for a missing or invalid pointer, manifest or object, nor for the store: only the content of a route index or page can be refused |
| ReleaseProtocol.RunKeeps | packages/publisher/src/publish.ts:88-240 | every possible run keeps the joint invariant of store and clients and only lets the store grow |
| ReleaseProtocol.PublishStepKeeps | packages/publisher/src/publish.ts:97-239 | each store call of publishRelease keeps the invariant of its program counter and of the store |
| ReleaseProtocol.RollbackStepKeeps | packages/publisher/src/rollback.ts:57-124 | each store call of rollbackRelease does |
| ReleaseProtocol.RollbackSwapKeeps | packages/publisher/src/rollback.ts:96-103 | the rollback's swap keeps it and succeeds only if the pointer is still the one read first |
| ReleaseProtocol.RoutingStepKeeps | packages/publisher/src/routing-publish.ts:214-270 | each store call of publishRoutingManifest does, and the pointer moves only while every listed site has a pointer |
| ReleaseProtocol.CompleteStays | packages/publisher/src/rollback-support.ts:101-168 | a complete release stays complete as the store grows |
| ReleaseProtocol.PlanComplete | packages/publisher/src/publish.ts:148-190 | a fully uploaded plan makes the pointer to it complete |
| PublishRuns.SoloPublishSucceeds | packages/publisher/src/publish.ts:88-240 | from any sound store an uninterrupted publish ends in success if and only if no object of another content sits at its keys; then all is stored and the site points to the plan |
| PublishRuns.ReplayRun | packages/publisher/src/publish.ts:192-212 | from any place before the pointer switch, a publish of what the pointer already names writes nothing and reports old ETag equal to new |
| PublishRuns.ResumablePublish | packages/publisher/src/publish.ts:97-212 | a rerun after a success leaves the store unchanged, and its receipt has old ETag equal to new, as has every rerun after it |
| PublishResume.PublishAfterCrashes | packages/publisher/src/publish.ts:97-212 | after any run in which other publishes of the release id were of the same plan, crashed or not, a publish by itself succeeds and a second one writes nothing |
| SoloRuns.SoloRollbackSucceeds | packages/publisher/src/rollback.ts:57-124 | an uninterrupted rollback succeeds if and only if the current pointer is the expected one or already the target's, and the target is restorable; otherwise the store is unchanged |
| SoloRuns.SoloRoutingSucceeds | packages/publisher/src/routing-publish.ts:214-270 | an uninterrupted routing publish succeeds if and only if its id and table pass their schemas, the table is not taken by another, every site has a pointer and every listed object exists; a second one changes nothing |
| SoloRuns.RoutingKeepsSound | packages/publisher/src/routing-publish.ts:214-270 | it keeps the store sound whether it succeeds or not |
| SoloOutcomes.PublishOutcome | packages/publisher/src/publish.ts:88-240 | an uninterrupted publish is refused for other bytes under one of its keys before anything else, then for another content type; otherwise exactly its missing objects are added and it becomes current: every field of the pointer and of the receipt is said, and a release that was current leaves the pointer alone |
| SoloOutcomes.RollbackOutcome | packages/publisher/src/rollback.ts:57-124 | an uninterrupted rollback fails for the first reason there is, in the order in which it looks, and else changes only the pointer: every field of it and of the receipt is said |
| SoloOutcomes.RoutingOutcome | packages/publisher/src/routing-publish.ts:214-270 | an uninterrupted routing publish stores the table before it looks up references, answers the first error, and writes the pointer, field by field, only when that would change it |
| SoloOutcomes.RollbackRestores | packages/publisher/src/rollback.ts:56-124 | publish a release, publish another, roll back: from any sound store the site points to the first again and no object has changed |
| ArtifactStores.ArtifactStore.constructor | packages/publisher/src/s3-artifact-store.ts:103-110 | starts empty |
| ArtifactStores.ArtifactStore.CreateIfAbsent | packages/publisher/src/s3-artifact-store.ts:111-128 | writes only where nothing is stored |
| ArtifactStores.ArtifactStore.CreateCurrentPointer | packages/publisher/src/s3-artifact-store.ts:129-147 | sets the pointer only where there is none, under an unused ETag |
| ArtifactStores.ArtifactStore.CompareAndSwapCurrentPointer | packages/publisher/src/s3-artifact-store.ts:199-231 | moves the pointer only from the expected ETag |
| ArtifactStores.ArtifactStore.Read | packages/publisher/src/s3-artifact-store.ts:148-164 | gives the stored object or nothing |
| ArtifactStores.ArtifactStore.ReadPointer | packages/publisher/src/s3-artifact-store.ts:186-198 | gives the current pointer with its ETag |
| ArtifactStores.ArtifactStore.List | packages/publisher/src/s3-artifact-store.ts:165-185 | lists exactly the keys of the release |
| ArtifactStores.ArtifactStore.ReadRouting | packages/publisher/src/routing-publish.ts:107-132 | gives the current routing pointer with its ETag |
| ArtifactStores.ArtifactStore.CreateRouting | packages/publisher/src/routing-publish.ts:155-176 | sets the routing pointer only where there is none |
| ArtifactStores.ArtifactStore.CompareAndSwapRouting | packages/publisher/src/routing-publish.ts:133-154 | moves it only from the expected ETag |
| ArtifactStores.UploadConditionally | packages/publisher/src/publish.ts:97-130 | an upload that meets an object goes on exactly when size and hash agree, like the protocol's upload steps |
| ArtifactStores.VerifyUploads | packages/publisher/src/publish.ts:148-176 | the remote verification loop is the protocol's run of verifying steps |
| ArtifactStores.SwitchPointer | packages/publisher/src/publish.ts:178-222 | create, swap and replay branches are the protocol's pointer steps |
| ArtifactStores.ReadFinalPointer | packages/publisher/src/publish.ts:224-239 | the final read fails only without a pointer; the receipt names the ETags of the write even when the pointer has moved on |
| ArtifactStores.PublishRelease | packages/publisher/src/publish.ts:88-240 | the whole method, with any verified reference, is the uninterrupted run of the protocol, on success and on every error |
| StoreOperations.VerifyInventory | packages/publisher/src/rollback-support.ts:127-145 | the listing is accepted exactly when its keys are the expected ones, none extra and none missing |
| StoreOperations.VerifyArtifacts | packages/publisher/src/rollback-support.ts:146-166 | the loop over artifacts stops at the first one missing or different |
| StoreOperations.VerifyRemoteRelease | packages/publisher/src/rollback-support.ts:101-168 | the remote verification is the protocol's run from reading the target to the decision |
| StoreOperations.MovePointer | packages/publisher/src/rollback.ts:75-124 | replay, conflict and swap are the protocol's last rollback steps |
| StoreOperations.RollbackRelease | packages/publisher/src/rollback.ts:57-124 | the whole method is the uninterrupted rollback of the protocol |
| StoreOperations.CheckReferences | packages/publisher/src/routing-publish.ts:232-247 | every site pointer key and release key is looked up before the pointer moves |
| StoreOperations.MoveRoutingPointer | packages/publisher/src/routing-publish.ts:249-270 | create, swap and no-change branches are the protocol's |
| StoreOperations.PublishRoutingManifest | packages/publisher/src/routing-publish.ts:214-270 | the whole method is the uninterrupted routing publish of the protocol |
| LruCache.CacheContract | packages/runtime/src/index.ts:151-193 | over every sequence of gets, sets and invalidations the size stays within the bound, get gives only the last value set and only before its expiry, and an unexpired key touched less than maxEntries distinct other keys ago is present |
| LruCache.TtlLruCache.constructor | packages/runtime/src/index.ts:151-158 | starts empty and valid |
| LruCache.TtlLruCache.DeleteKey | packages/runtime/src/index.ts:160-184 | removes the entry of the key and reports whether there was one |
| LruCache.TtlLruCache.Get | packages/runtime/src/index.ts:160-172 | deletes an expired entry, moves a live one to the newest place |
| LruCache.TtlLruCache.Set | packages/runtime/src/index.ts:174-184 | puts the entry in the newest place and evicts the oldest beyond the bound |
| LruCache.TtlLruCache.InvalidateKeys | packages/runtime/src/index.ts:186-192 | removes exactly the matching entries and keeps the order of the others |
| Runtime.PageKeyInjective | packages/runtime/src/index.ts:235-236 | page cache keys of different site, release or path never coincide |
| HostChoice.ListedHostChosen | packages/runtime/src/index.ts:490-503 | with a table that its schema accepts, every listed host, canonical or alias, is answered for the site of its entry and with that site's canonical host |
| HostChoice.UnknownExactly | packages/runtime/src/index.ts:490-494 | a hostname is unknown if and only if no entry of the table has it |
| HostChoice.ChoiceIsTotal | packages/runtime/src/index.ts:496-502 | with such a table nothing else can happen: a listed site always has its canonical host |
| Documents.SortedIsTable | packages/schema/src/release/v1/routing.ts:43-90 | sorting the hosts of a table that the schema accepts keeps its entries and gives a table that the schema accepts |
| Runtime.UncachedStays | packages/runtime/src/index.ts:319-466 | what a cache-free resolver answers for two pointer ETags never changes once it succeeds |
| Runtime.UncachedBelongs | packages/runtime/src/index.ts:262-304 | its page is a stored object listed, with its size and hash, in the manifest of the one release named in the answer |
| RuntimeAnswers.UncachedJustified | packages/runtime/src/index.ts:319-577 | every answer, said of the stored objects: the table named by hash, the entry of the host, the manifest named by ids and canonical hash, the route index and document it lists with length, type and hash, their site, domain and pathname; and which code there is when one of them fails |
| RuntimeAnswers.NowJustified | packages/runtime/src/index.ts:523-588 | an uninterrupted request gets that answer from the current pointers; a refused hostname is unknown, a refused pathname an invalid request |
| RuntimeAnswers.TableExact | packages/runtime/src/index.ts:319-364 | a routing table loads if and only if the pointer with the ETag names it by hash and the schema accepts it; any failure is RoutingInvalid |
| RuntimeAnswers.SiteExact | packages/runtime/src/index.ts:366-445 | a site loads if and only if pointer, manifest and route index say so of each other; a bad pointer or manifest is SiteReleaseInvalid, a bad route index ArtifactInvalid |
| RuntimeAnswers.PageExact | packages/runtime/src/index.ts:447-466 | a page loads if and only if it is stored as the manifest lists it and is this site's and this pathname's |
| CacheAgreement.CachesAgree | packages/runtime/src/index.ts:319-588 | over every history of store steps, clock ticks, evictions, failures and requests interleaved at each awaited read, digest and return, a successful answer is the cache-free one for the routing and site ETags the request saw, and its page belongs to the release named |
| CacheAgreement.StepOk | packages/runtime/src/index.ts:319-466 | every await-to-await step of a request keeps the caches sound and the request on course |
| CacheAgreement.CachedPage | packages/runtime/src/index.ts:447-466 | a cached page under its key is the page a fresh read with all its checks would give |
| CacheAgreement.SameRelease | packages/runtime/src/index.ts:366-445 | two checked states of one site and release id have the same manifest and routes, so a page key needs no hash |
| ResolveRuns.UninterruptedResolve | packages/runtime/src/index.ts:523-588 | a request by itself, with any sound caches and at any time, gives the cache-free answer for the current pointers, failures included |
| Rejections.RejectedExact | packages/runtime/src/index.ts:505-545 | the answer is a rejection if and only if the site state loads, no route has the pathname, and the not-found page fails its checks or is another page |
| Rejections.RunRejects | packages/runtime/src/index.ts:523-588 | the same of an uninterrupted request through any sound caches |
| Rejections.ThrowRejects | packages/runtime/src/index.ts:542-545 | a read or digest that throws rejects a request if and only if it is loading the page for a missing route |
| Rejections.StepRejects | packages/runtime/src/index.ts:505-522 | any other step rejects exactly where the not-found page turns out not to be one |
| Rejections.RejectedHadNoRoute | packages/runtime/src/index.ts:538-545 | in every history, a rejected request was for a pathname that some release of its site had no route for |
| RejectedReleases.UnlistedPageRejects | packages/runtime/src/index.ts:505-511 | a release published and routed from the empty store, and a request that is rejected |
| RejectedReleases.DeployedNeverRejects | packages/runtime/src/index.ts:538-545 | with a compiled release deployed no uninterrupted request to its domain is rejected, with any sound caches |
| RuntimeService.Service.constructor | packages/runtime/src/index.ts:306-317 | starts with empty caches of the given size and lifetime |
| RuntimeService.Service.LoadRouting | packages/runtime/src/index.ts:319-364 | the cached or read routing table is the one of the request's step semantics |
| RuntimeService.Service.LoadSite | packages/runtime/src/index.ts:366-391 | a site state is reused only for an equal pointer ETag, and replacing one invalidates that site's pages |
| RuntimeService.Service.LoadSiteFromStore | packages/runtime/src/index.ts:393-445 | pointer, manifest and route index are read and validated in the order of the step semantics |
| RuntimeService.Service.LoadPage | packages/runtime/src/index.ts:447-466 | a page comes from the cache or from a checked read |
| RuntimeService.Service.ReadPage | packages/runtime/src/index.ts:452-466 | a page read from the store is checked before it is cached |
| RuntimeService.Service.Serve | packages/runtime/src/index.ts:540-577 | page, redirect, gone and not-found branches give the outcomes of the step semantics |
| RuntimeService.Service.Resolve | packages/runtime/src/index.ts:523-588 | the whole method is the uninterrupted run, so with sound caches it answers as without caches and leaves sound caches; what it answers is said of the store by `RuntimeAnswers.NowJustified` |
| Pagination.PaginateListing | packages/compiler/src/routes/pagination.ts:33-60 | the counted loop returns the pages of the specification, and refuses a page size below one |
| Pagination.PagesPartition | packages/compiler/src/routes/pagination.ts:33-60 | the pages put together are the items, all but the last are full, and no page is empty unless there are no items |
| Pagination.PagesChain | packages/compiler/src/routes/pagination.ts:33-60 | page pathnames are distinct and previous and next link exactly the neighbours |
| Pagination.PageForm | packages/compiler/src/routes/pagination.ts:14-60 | the pages are exactly these, field by field: the fewest that hold the items, all but the last full, with their numbers, pathnames and neighbours |
| Pagination.PathnamesDistinct | packages/compiler/src/routes/pagination.ts:14-15 | different page numbers give different pathnames |
| Pagination.ValidatePagination | packages/render-core/src/validation.ts:90-130 | accepts exactly the paginations that satisfy the declarative rule |
| Pagination.EmittedPagesValid | packages/render-core/src/validation.ts:90-130 | every page the compiler emits passes the renderer's validation |
| Breadcrumbs.ValidateBreadcrumbs | packages/render-core/src/validation.ts:22-51 | accepts exactly the breadcrumb lists that satisfy the declarative rule |
| Breadcrumbs.ArticleBreadcrumbsValid | packages/compiler/src/compile/pages.ts:28-47 | article breadcrumbs of a normalised pathname pass that validation if and only if the pathname is not the root |
| Breadcrumbs.ListingBreadcrumbsValid | packages/compiler/src/compile/pages.ts:152-155 | listing breadcrumbs do under the same condition |
| Breadcrumbs.ArticleTrail | packages/compiler/src/compile/pages.ts:28-47 | the crumbs go from the site's name at the root, one segment at a time, to the article's own title; each between has the title of the listing at its pathname, or else its own segment capitalised |
| RouteIndexing.ClaimPathnames | packages/compiler/src/routes/route-index.ts:106-162 | the claiming loops claim documents and sorted gone pathnames in order, or stop at a collision |
| RouteIndexing.AddRedirectRoutes | packages/compiler/src/routes/route-index.ts:164-185 | redirects add or reuse redirect routes and a later rule for a pathname wins |
| RouteIndexing.BuildRouteIndex | packages/compiler/src/routes/route-index.ts:94-222 | the whole method is the specified index or the specified first error |
| RouteIndexing.IndexExact | packages/compiler/src/routes/route-index.ts:94-222 | it succeeds if and only if claims are distinct, redirects clash with no other route, target an allowed or active page in one hop, and one document is the not-found page; then every pathname has one route, nothing else has, and routes are in order |
| RouteForms.IndexForm | packages/compiler/src/routes/route-index.ts:94-222 | for every input, which error there is, in the order of the checks, or an index whose routes are, field by field, those of the documents, gone pathnames and redirects, in the order of their code units |
| RouteForms.TargetForm | packages/compiler/src/routes/route-index.ts:43-72 | what is wrong with a redirect target: unparsable or not https, a sibling's domain, itself a redirect, or no active page; nothing else is |
| SiteCompiler.EmitArticles | packages/compiler/src/compile/pipeline.ts:116-136 | articles are emitted in pathname order or the first failure is returned |
| SiteCompiler.EmitListing | packages/compiler/src/compile/pipeline.ts:138-174 | every page of a listing is emitted in order, with its own items sorted and unrepeated |
| SiteCompiler.EmitListings | packages/compiler/src/compile/pipeline.ts:183-205 | every category or tag gets its listing of exactly the editions that carry it |
| SiteCompiler.EmitRedirects | packages/compiler/src/compile/pipeline.ts:207-221 | every redirect gets its document |
| SiteCompiler.EditionsDistinct | packages/compiler/src/compile/pipeline.ts:84-93 | the seen-set loop decides pairwise distinctness of edition pathnames |
| SiteCompiler.EmitAll | packages/compiler/src/compile/pipeline.ts:94-228 | the nested loops emit the specified sequence of documents or its first failure |
| SiteCompiler.CompileSite | packages/compiler/src/compile/pipeline.ts:79-270 | the whole method is the specified compilation, on success and on failure; when it succeeds and what it holds are `CompileResults.CompilesWhen` and `CompiledContent.CompiledExactly` |
| CompiledContent.CompiledExactly | packages/compiler/src/compile/pipeline.ts:79-270 | the documents are, in order of pathname and no pathname twice, exactly one article for each edition, each page of the article list and of every category and tag over just the editions that carry it, each redirect with its absolute target, and the not-found page; what a listing shows of an edition, its pages and the breadcrumb titles are said field by field |
| CompiledContent.SitemapExact | packages/compiler/src/compile/pipeline.ts:242-250 | the sitemap lists exactly the indexed documents, so no redirect and not the not-found page |
| CompiledContent.PageShows | packages/compiler/src/compile/pages.ts:137-149 | sorting the items of a page again changes nothing and its duplicate check never fails on a page of a sorted listing |
| CompileResults.CompilesWhen | packages/compiler/src/compile/pipeline.ts:79-270 | a site compiles if and only if no two editions have one pathname, every document renders, the emitted documents have a route index and the sitemap renders; and what the output then holds |
| CompileResults.RendersExact | packages/compiler/src/compile/pipeline.ts:116-228 | every emission succeeds if and only if each edition, each page of each listing, each redirect target and the not-found page renders and the page size is positive |
| OrderIndependence.CompilationIgnoresOrder | packages/compiler/src/compile/pipeline.ts:79-270 | reordering editions, categories, tags, redirects and gone paths gives an identical output or a failure both times, for any strict total order on pathnames |
| ReleasePlanning.AddObjects | packages/publisher/src/build-release.ts:120-159 | objects are added in order until a path is unsafe or repeated |
| ReleasePlanning.PlanRelease | packages/publisher/src/build-release.ts:104-194 | the whole method is the specified plan or its first error, both of which `PlanForms.PlanForm` says field by field |
| ReleasePlanning.PlannedIsPlan | packages/publisher/src/build-release.ts:104-194 | every plan has distinct paths, true sizes and hashes, a manifest listing exactly its objects in path order, and one object for each document, route index, sitemap and medium |
| ReleasePlanning.PlannedExactly | packages/publisher/src/build-release.ts:134-159 | a plan holds exactly one object for each compiled document at its route's key, the route index, the sitemap, the routing candidate and the media |
| ReleasePlanning.PlannedWhen | packages/publisher/src/build-release.ts:75-194 | planning succeeds if and only if ids and compiler version are valid, there are distinct source versions, and all paths are safe and different |
| PlanForms.PlanForm | packages/publisher/src/build-release.ts:104-194 | for every input, the first error in the order of the checks and of the objects, or a plan with every field of every object and of the manifest |
| SchemaForms.SupportedExact | packages/schema/src/release/v1/primitives.ts:22-25 | a supported compiler version is three numerals, the first of value 1, with an optional pre-release and an optional build suffix |
| SchemaForms.ArtifactPathExact | packages/schema/src/release/v1/primitives.ts:5-56 | a safe artifact path is up to 1024 characters of parts of letters and digits, with dots, underscores and dashes inside, and not the manifest's |
| SchemaForms.IdentifierExact | packages/schema/src/page-document/v1/primitives.ts:7 | an identifier is words of lower-case letters and digits with one dash or underscore between two of them |
| SchemaForms.HostExact | packages/schema/src/release/v1/routing.ts:11-12 | a host is at least two labels of up to 63 lower-case letters, digits and inner dashes |
| ReleasePlanning.RollbackCompilerCheck | packages/publisher/src/build-release.ts:87-96 | a release that can be planned passes the compiler check of rollback if and only if its version has no leading zero |
| ReleasePlanning.LeadingZeroPlans | packages/publisher/src/rollback-support.ts:114-119 | versions 01.x.y can be planned and are refused by rollback |
| Served.ServedIsCompiled | packages/runtime/src/index.ts:523-577 | compile, plan, publish and routing publish in a row: every host that the table lists for the site, aliases included, then answers, through any sound caches and at any time, 200 with the compiled page at each active path and at the not-found page's own, 301 at each redirect, 410 at each gone path, and 404 with the compiled page everywhere else |
| Served.DeployedServes | packages/runtime/src/index.ts:523-577 | the same from any store in which the plan is stored, its pointer set and its domain the canonical host of the site in the routing manifest |
| Served.HostsAgree | packages/runtime/src/index.ts:490-503 | two hosts that the routing manifest has for the site get the same answer at every pathname |
| Served.CurrentIsServed | packages/runtime/src/index.ts:523-577 | the same for every listed host in every state that interleaved publishes, rollbacks and routing publishes can reach, while the site points to the release and the routing manifest has the domain as the canonical host of the site |
| Served.RunsDeploy | packages/publisher/src/routing-publish.ts:214-270 | an uninterrupted publish followed by a routing publish reaches such a store |
| Served.RedirectLands | packages/compiler/src/routes/route-index.ts:187-214 | each redirect of a compiled site is a document, and if it stays on the site its target is an active document |
| Served.RedirectIsOneHop | packages/runtime/src/index.ts:556-569 | following a served internal redirect gives a 200 page at once |
| RedirectGraph.ValidateRedirect | packages/domain/src/url/graph.ts:33-91 | the walk terminates on any registry, cyclic ones included, and returns the specified problem |
| RedirectGraph.ValidateRedirectGraph | packages/domain/src/url/graph.ts:93-132 | the nested loops return the registry or the first problem |
| RedirectGraph.WalkExact | packages/domain/src/url/graph.ts:33-91 | the walk finds no problem if and only if the redirect targets an existing active route of the same tenant and site |
| RedirectGraph.GraphExact | packages/domain/src/url/graph.ts:93-132 | a registry is accepted if and only if ids and keys are pairwise distinct and every redirect does that |
| UrlErrors.WalkReports | packages/domain/src/url/graph.ts:33-91 | the problem of a redirect is what the last route of its trail says: a loop, a missing route, another owner, a chain of more than one hop, or a route that is not active |
| UrlRegistry.CreateUrlRegistry | packages/domain/src/url/registry.ts:77-94 | succeeds if and only if every reserved value normalises, and holds each result once, in order |
| UrlRegistry.UniqueKeyInjective | packages/domain/src/url/normalization.ts:193-198 | a key determines its site, locale and pathname |
| UrlErrors.UniqueKeyText | packages/domain/src/url/normalization.ts:193-198 | the key is the JSON text of the array of site, locale and pathname |
| UrlRegistry.AttemptKeeps | packages/domain/src/url/registry.ts:96-206 | every successful operation keeps the registry invariant, loses no route, only moves states forward, and counts one revision |
| UrlRegistry.RunKeeps | packages/domain/src/url/transitions.ts:80-224 | over every run: ids and keys unique, no route on a reserved pathname, routes never lost, states only reserved to active to redirected or gone, redirects one hop to a route of the same tenant, site and content, revision equal to the number of successes |
| UrlRegistry.RenameKeeps | packages/domain/src/url/transitions.ts:80-193 | a successful rename keeps the invariant and leaves every redirect target active |
| UrlEffects.AttemptExact | packages/domain/src/url/registry.ts:96-206 | on every registry that keeps the invariant, an operation succeeds if and only if it is permitted, and then changes exactly the one route it names |
| UrlEffects.ReserveExact | packages/domain/src/url/registry.ts:96-156 | a reservation succeeds exactly at the current revision for a free, normalised, unreserved address under an unused id, and only adds that route |
| UrlEffects.PublishExact | packages/domain/src/url/registry.ts:158-206 | publishing succeeds exactly for a reserved route and a valid hostname, and only makes it active under its canonical URL |
| UrlEffects.RenameExact | packages/domain/src/url/transitions.ts:80-193 | a rename succeeds if and only if the source is active and owned, the new address and id are free, every redirect in the registry still leads to an active route, and none leads to the source; then the source redirects to one new active route with its content |
| UrlEffects.MarkGoneExact | packages/domain/src/url/transitions.ts:195-224 | retiring succeeds exactly for an active route at the current revision, whatever redirects lead to it |
| UrlErrors.AttemptExplained | packages/domain/src/url/transitions.ts:80-224 | a refused operation answers the error of its first check that fails; for a rename that would break a redirect, of the first such redirect |
| UrlRegistry.TargetsStayActive | packages/domain/src/url/transitions.ts:80-224 | redirect targets are always active in a run that retires none |
| UrlRegistry.GoneExact | packages/domain/src/url/transitions.ts:195-224 | marking a route gone keeps redirect targets active if and only if the route is no redirect's target |
| UrlRegistry.DeadRedirectBlocksRenames | packages/domain/src/url/transitions.ts:80-193 | with one redirect to a dead page every rename fails |
| UrlRegistry.RenamesStayBlocked | packages/domain/src/url/transitions.ts:80-224 | and no sequence of operations repairs it |
| RetiredTargets.RetiringRunKills | packages/domain/src/url/transitions.ts:195-224 | reserve, publish, rename and retire the new address: with any normalisers this run from a new registry ends with a redirect to a dead page |
| RetiredTargets.DeadRedirectHappens | packages/domain/src/url/transitions.ts:80-224 | on concrete input, and every rename after any further operations then fails |
| RetiredTargets.DeadExactly | packages/domain/src/url/transitions.ts:195-224 | a run leaves a redirect to a dead page if and only if one of its operations retires a redirect target |
| UrlRegistry.TargetCannotMove | packages/domain/src/url/transitions.ts:80-193 | the target of a redirect cannot be renamed |
| PercentCoding.DecodeEncode | packages/domain/src/url/normalization.ts:123-128 | decoding an encoded segment gives the segment back, for every string and through one to four UTF-8 bytes |
| PercentCoding.EncodeInjective | packages/domain/src/url/normalization.ts:123-128 | different segments have different encodings |
| PathNormalization.NormalizePathname | packages/domain/src/url/normalization.ts:130-191 | the loop over segments returns the specified path or error; what that path and that error are is said of the text by the rows of `PathText` |
| PathNormalization.EncodeDecoded | packages/domain/src/url/normalization.ts:159-188 | decodes, composes and encodes the non-empty segments in order, or fails at the first malformed or dot segment |
| PathNormalization.NormalizationIsStable | packages/domain/src/url/normalization.ts:130-191 | normalising an output again returns it, or refuses it as ambiguous exactly when it holds an encoded separator |
| PathNormalization.StableExact | packages/domain/src/url/normalization.ts:130-191 | an accepted input is stable if and only if no decoded segment holds the text of an encoded separator |
| PathNormalization.EqualPathsEqualMeanings | packages/domain/src/url/normalization.ts:130-191 | two accepted inputs normalise equally if and only if their decoded non-empty segments agree |
| PathNormalization.UnstablePath | packages/domain/src/url/normalization.ts:130-191 | `/%25%32f` normalises to a path that is refused |
| PathNormalization.NormalizedIsNormal | packages/domain/src/url/normalization.ts:130-191 | an output has no empty segment, which is what the breadcrumb results ask of a pathname |
| PathText.PlainPathIsKept | packages/domain/src/url/normalization.ts:123-191 | a path of non-empty segments of letters, digits, dashes, underscores, dots and tildes, none a dot segment, normalises to itself |
| PathText.OutputForm | packages/domain/src/url/normalization.ts:123-191 | in every output each character is one of these, a slash, or part of an escape in two upper-case hexadecimal digits of a byte that is none of these |
| PathText.DecodeExact | packages/domain/src/url/normalization.ts:165 | a segment decodes to a text if and only if it spells it in characters and escapes of UTF-8 bytes |
| PathText.SeparatorExact | packages/domain/src/url/normalization.ts:149-157 | what counts as an encoded separator, said of the text |
| PathText.RefusedExactly | packages/domain/src/url/normalization.ts:130-191 | which error a path is refused with, and that it is refused for nothing else |
| Quota.QuotaBound | apps/delivery/src/auth/site-auth.ts:68-91 | for calls in time order, any half-open interval of one window length admits at most twice the limit per bucket |
| Quota.WindowBound | apps/delivery/src/auth/site-auth.ts:76-91 | the window of a bucket admits at most the limit |
| Quota.AnswerExact | apps/delivery/src/auth/site-auth.ts:76-91 | for calls in time order, a request is refused if and only if the window it falls in has had as many requests as the limit, refused ones included; the wait is the time to the end of that window in seconds, rounded up |
| Quota.WaitingHelps | apps/delivery/src/auth/site-auth.ts:82-87 | a refused caller that waits as told, while nobody else opens a window, is admitted |
| Quota.QuotaTracker.constructor | apps/delivery/src/auth/site-auth.ts:68-74 | starts with no buckets |
| Quota.QuotaTracker.Consume | apps/delivery/src/auth/site-auth.ts:76-91 | opens, counts or refuses in the bucket named and leaves the others alone |

## Left out

- Strings are sequences of Unicode scalar values: lone surrogates, which JavaScript strings can hold, are not part of this model. Order by UTF-16 code units is.
- JSON numbers are integers, and object keys keep insertion order: fractions, exponents, `-0` and the enumeration of integer-like keys first are not part of this model.
- A stored body is known by what reading it as JSON gives, and its byte length is some fixed function of it; writing a page, route index or routing manifest as bytes is an injective constructor. `canonicalJson` itself is modelled apart, on JSON values.
- SHA-256, UTF-8 text decoding of bodies, NFC and the URL parser are parameters or free constructors; collisions do not exist.
- Store keys are structured (site, release, path) instead of strings with slashes; content types other than the comparison of equality are not parsed.
- Timestamps are opaque strings in documents and integers in caches and quotas; formats of instants are not checked.
- Requests arrive with their hostname and pathname already normalised or refused, as options.
- Paging of the store's listing is one step, although several reads could straddle a concurrent write; only upload creates keys, so the expected keys that were present stay present.
- ETags are fresh or reused for equal content in the interleaved protocol, and fresh in the uninterrupted runs and methods.
- A publish with a foreign verified reference is followed alone, not among other clients.
- A crash is a client that takes no further step; a store call that fails without having taken effect is a crash of its client, and a write whose answer is lost is a client that stops after it.
- `resolveSitemap`, the sitemap cache and `buildRoutingManifest`: the same checks as pages and tables, with no new property.
- The media runtime of the delivery application: repeats the same pointer, manifest and hash checks.
- Rendering of articles, listings, redirects and the not-found page is a parameter of the compiler; structured data, SEO fields and blocks are its content.
- Known domains and canonical domains are lower case when they reach route indexing.
- `retainActiveUrlForContentUpdate`, `constructCanonicalUrl`, hostname and locale normalisation: single-branch facts next to the registry's operations.
- Staging of a release directory on disk, S3 client calls, DNS, queues, access policy, quality rules, the transition tables of releases and editions, React rendering and the console.
- ArtifactStores.PublishRelease: the method runs without interleaving; interleaving is the subject of the step machine that it is proved to run.
