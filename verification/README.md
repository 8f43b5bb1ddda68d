# Proofs about the server core

This project models the parts of the server whose correctness rests on an invariant or an algorithm, and proves what
they promise. `dafny verify dfyconfig.toml` checks everything. Code that changes state in place is modelled by classes
and loops, each proved equal to a specification function; what the code promises is proved about those functions, for
every input, every run or every interleaving.

- **Render cache.** `RenderCaches` has the in-process cache with its tag index and its document byte budget;
  `TagProtocol` has any number of processes that share a store with versioned tags, `DocumentProtocol` the whole
  documents they attach to cached results, `RenderAge` the age of what they serve, `RenderReuse` how long a stored
  result answers.
- **Expiring stores.** `RuntimeStates` is the runtime state store, `PagePlans` the page plan table that must outlive it.
- **Style sheets.** `CssUnits` is the splitter's automaton and loop, `CssTokens` an independent lexical grammar it is
  compared with, `CssChunks` the packing and rebalancing loops.
- **Templates.** `TemplateParser` is the recursive-descent parser and `TagEnds` and `TemplateSource` say what it makes of a
  source, `TemplateRenderer` is the renderer with the static fragments and `TemplateMeaning` says what it shows,
  `TemplateRoundTrip` is the relation between the two, `StatePlaceholders` the two-stage substitution.
- **Concurrency.** `Idempotency` is single flight and replay, with the JSON encoding of requests as bytes in `Utf8`;
  `ServerLifecycle` is admission, load shedding and drain, `TimeoutWriters` the writer that handler and timeout share.
  A theorem ranges over every sequence of steps or calls.
- **Matching and limits.** `SelectorSearch`, `RouteMatch` and `Routers`, `CircuitBreakers` and `HttpRetry`, `RateWindow`.

Clocks, random tokens, handlers, the network and the shared store are parameters or nondeterministic choices. The case
tables of Unicode beyond ASCII are arbitrary constants (`Letters`), so the theorems hold for every version of them. Text
is a sequence of code points, except in idempotency and responses, where it is bytes. A step system's state holds some
history (which render or handler run made a result, which slots were given back) that the program does not keep; it is
there to state the theorems; the circuit breaker and the router keep ghost logs for the same reason.

Facts that the proofs bring out:

- A document budget between one byte and 1 MiB loses track of bytes, exactly when a document larger than the budget
  replaces one (`ExactIff`, `AccountedIff`); with the program's 32 MiB it cannot happen.
- A result can be served almost twice its lifetime after it was rendered, and no later (`AgeReached`, `AgeBound`).
- Coherence rests on the store keeping its tag keys: one lost key can bring an invalidated result back
  (`ForgottenTag` says exactly when, `StoreMustKeepTags` gives a run).
- A request that renders, is overtaken by an invalidation and a newer render, and then attaches its document leaves the
  stale document on the newer entry (`LateDocument`). Documents keep to their entries' results if and only if each is
  attached to the result it was built from (`MatchingIff`), and are then as coherent as results (`DocumentsCoherent`,
  `PageDocumentsCoherent`).
- A request with a byte that is in no UTF-8 character, in its body or in its key, has another one with the same key and
  fingerprint, which is served its response and not refused; a request without such a byte has none
  (`OnlyEqualServedIff`, `BrokenBodiesCollide`).
- A compound selector with two identifiers selects by the last one only (`RuleMeansAllIff`).
- Two requests that put their root tokens in one order and remember their plans in the other can lose a plan while its
  state is still readable (`CrossingLosesPlan`, with the exact condition in `StoresAgree`).
- A cron job added after the cron manager has stopped still gets a loop, which can be live when dependencies close; no
  loop is live from the stop to the close if and only if none is added (`LateJobIsLive`, `NoLateJobs`).
- The rate limiter bounds nothing when its window is zero or negative and its rate positive (`RateBoundIff`).
- A one-parameter pattern matches the root path, with a slash as the value, and a lone wildcard does too, although the
  root is an instance of neither (`RootMatches`).
- A half-open circuit breaker lets every request through, not one probe (part of `LetsThroughExactly`).

## Model

| member | source | states |
|---|---|---|
| RenderCaches.RenderCache.constructor | web_framework.go:2229-2241 | an empty, valid cache; a limit of zero or less becomes 1024 entries |
| RenderCaches.RenderCache.SetDocument | web_framework.go:2249-2281 | attaches a document within the budget, at the cost of other documents only when it does not fit; the whole outcome of the give-up return; keeps the cache valid for budgets of at least 1 MiB |
| RenderCaches.RenderCache.MakeRoom | web_framework.go:2263-2277 | drops documents of other entries only while the new one does not fit, and fails exactly when it is larger than the whole budget |
| RenderCaches.RenderCache.SetWithTagVersions | web_framework.go:2286-2331 | stores without a document, evicts the oldest entry of a full cache, moves the key between tags, keeps bytes, limits and index |
| RenderCaches.RenderCache.Oldest | web_framework.go:2290-2296 | an entry no newer than any other, unless the empty key is in use |
| RenderCaches.RenderCache.InvalidateTags | web_framework.go:2332-2345 | removes everything indexed under the tags and their bytes, and nothing else |
| RenderCaches.RenderCache.BeginRevalidate | web_framework.go:2346-2354 | starts a revalidation of the key unless one is under way |
| RenderCaches.SetKeepsIndex | web_framework.go:2307-2331 | after storing, every entry is indexed under at least its own tags, whoever was evicted |
| RenderCaches.InvalidateKeepsIndex | web_framework.go:2332-2345 | after an invalidation no entry carries an invalidated tag, and the index is still sound |
| RenderCaches.AccountedIff | web_framework.go:2249-2281 | attaching a document keeps the byte count exact if and only if the give-up return does not strand an old document |
| RenderCaches.SmallBudgetLosesTrack | web_framework.go:2249-2281 | for every budget between one byte and 1 MiB, a run of a store and two attaches on a new cache after which the byte count is wrong |
| RenderCaches.ExactIff | web_framework.go:2249-2345 | the byte count is exact and within budget after every run if and only if the budget is at least 1 MiB, or zero |
| RenderCaches.BudgetRun | web_framework.go:2249-2345 | over every run the byte count equals the documents' total and stays within budget, the entries stay within the limit, and the index is sound |
| RenderCaches.FoundIsLastStored | web_framework.go:2242-2345 | what is found under a key is exactly what was last stored under it, and nothing that happened since invalidated one of its tags |
| RenderCaches.StaysFound | web_framework.go:2242-2345 | the converse: what was stored under a key is found as it was stored until another store of the key, its eviction, or the invalidation of a tag it ever had |
| RenderCaches.EvictsOnlyWhenFull | web_framework.go:2286-2303 | nothing is evicted before as many different keys have been stored as the cache may hold |
| RenderCaches.OneRevalidation | web_framework.go:2346-2359 | over every sequence of calls, between two revalidations of a key that started the first one has ended |
| TagProtocol.Coherent | web_framework.go:4759-4833 | once a process has invalidated a tag, no process that shares the store serves, from either level or from a flight, a result with the tag that was not rendered afterwards; without a store the same inside one process |
| TagProtocol.SoundRun | web_framework.go:4664-4757 | in every state of every run, a copy whose versions are current is newer than every invalidation of its tags |
| TagProtocol.LookupFresh | web_framework.go:4747-4815 | what a look-up accepts, locally or shared, is newer than every invalidation of its tags |
| TagProtocol.SoundStoreLocal | web_framework.go:4739-4741 | storing a copy with the versions just read keeps that |
| RenderAge.AgeBound | web_framework.go:4759-4833 | whatever is served, from either level or from a flight, was rendered less than twice the longest lifetime (ttl and stale time) ago, by two nanoseconds at least |
| RenderAge.AgeReached | web_framework.go:4798-4799 | for every lifetime a run of two processes reaches that age: a copy from the shared level is stamped anew |
| RenderReuse.LocalReuse | web_framework.go:4759-4833 | what a flight, a revalidation or a copy from the shared level stored in a process answers its look-ups of the key, a hit until the ttl is over and stale until the stale time is, unless the key is stored again, evicted or dropped or a tag of the result is invalidated |
| RenderReuse.SharedReuse | web_framework.go:4687-4730 | what was written to the shared store answers every process without a local answer in the same way, unless the key is written again or lost or a tag of the result is invalidated |
| RenderReuse.RevalidatingIff | web_framework.go:4776-4797 | over every run a page is being revalidated in a process if and only if the process gave a stale answer for it and no revalidation has ended since |
| TagProtocol.ForgottenTag | web_framework.go:4664-4683 | forgetting a tag key makes an out-of-date copy valid again if and only if the copy has the default version of that tag, which is no longer the current one, and its other versions are current |
| TagProtocol.StoreMustKeepTags | web_framework.go:4664-4683 | a run of two processes after which a forgotten tag key brings an invalidated result back |
| DocumentProtocol.MatchingIff | web_framework.go:2249-2281 | over every run all documents belong to the result of their entry if and only if every document attached was built from the result its entry has at that moment |
| DocumentProtocol.DocumentsCoherent | web_framework.go:5115-5121 | when every document attached was built from its entry's own result: from the moment an entry was valid, the document it has, if its result has a tag whose invalidation completed before that moment, was built from a result rendered after the invalidation |
| DocumentProtocol.PageDocumentsCoherent | web_framework.go:4915-4930 | the same for the page handler, which looks the page up, takes the entry it then finds without another check, and serves its document |
| DocumentProtocol.LateDocument | web_framework.go:4915-4930 | for every document that fits, a run of two page requests in which the first one attaches its document to the entry of the second and the document is served although its result was invalidated |
| RuntimeStates.RuntimeStateStore.Put | web_framework.go:2651-2670 | prunes when due, makes room from the front of the queue, then stores and queues the token |
| RuntimeStates.RuntimeStateStore.Get | web_framework.go:2687-2702 | the state for its owner before it expires; an expired entry is deleted |
| RuntimeStates.RuntimeStateStore.PruneExpired | web_framework.go:2634-2649 | pops dead and expired tokens up to the first live one |
| RuntimeStates.RuntimeStateStore.DiscardOldest | web_framework.go:2622-2632 | removes the oldest stored token, skipping dead ones |
| RuntimeStates.Retention | web_framework.go:2651-2702 | after every run a token is readable if and only if this owner put it less than 30 minutes ago and fewer than 4096 puts came after it |
| RuntimeStates.Bounded | web_framework.go:2665-2668 | the store never exceeds 4096 entries |
| RuntimeStates.PruneIsComplete | web_framework.go:2634-2649 | a prune leaves map and queue with the same tokens, none of them expired |
| RuntimeStates.NothingLingers | web_framework.go:2651-2664 | after a put the store holds no state that expired a minute ago or earlier |
| PagePlans.PlanTable.PrunePagePlans | web_page_plans.go:5-17 | pops until the front is live and the table is below its limit |
| PagePlans.PlanTable.RememberPagePlan | web_page_plans.go:19-35 | prunes, then stores with a new expiry; a token is queued once |
| PagePlans.PlanTable.LookupPagePlan | web_page_plans.go:37-47 | the plan while it is live; an expired one is deleted |
| PagePlans.FoundExactly | web_page_plans.go:5-47 | a plan is found if and only if it was remembered less than 30 minutes ago with fewer than 4096 newer plans |
| PagePlans.NoDeadPlans | web_page_plans.go:5-35 | remembering a plan leaves only live plans in the table |
| PagePlans.StoresAgree | web_framework.go:2834-2844 | while the state of a root token can be read, and until that state expires, its plan can be looked up, as it was remembered, if and only if fewer than 4096 plans were remembered after it; so always if none of those belongs to an earlier put, whatever either store evicted |
| PagePlans.CrossingLosesPlan | web_framework.go:2834-2844 | when two requests put their root tokens in one order and remember their plans in the other, then 4095 more root tokens leave the second state readable and its plan gone; fewer leave both, more neither |
| PagePlans.BothRun | web_framework.go:4046-4048 | every run of puts, plans remembered for them later, reads and look-ups keeps both stores sound |
| CssUnits.SplitCSSUnits | web_framework.go:3606-3668 | the loop over depth, quote and comment computes the automaton's units |
| CssUnits.SlicesRebuild | web_framework.go:3642-3666 | the raw slices between cuts rebuild the input; each but the tail has its only cut at its end, the tail has none |
| CssUnits.JoinedUnitsSplitAlike | web_framework.go:3606-3668 | splitting the joined units of any text gives exactly the same units |
| CssUnits.UnitSplitsToItself | web_framework.go:3606-3668 | every unit splits to itself |
| CssUnits.UnitsAreTheText | web_framework.go:3606-3668 | the units, each in front of its line feed, are the text but for white space before, between and behind them; each is trimmed and has its only cut at its end, except that the last may have none |
| CssTokens.EveryTextHasTokens | web_framework.go:3612-3639 | every text is spelled by strings, comments and plain characters of the independent grammar |
| CssTokens.CutsAreTopLevel | web_framework.go:3640-3663 | the slices are the groups of those tokens: every cut is outside strings and comments at brace depth 0, and every such end is a cut |
| CssChunks.Pack | web_framework.go:3708-3726 | the packing loop computes the greedy grouping |
| CssChunks.PackedIsGrouping | web_framework.go:3719-3726 | the chunks hold the units in order, and a chunk of several units is within the limit |
| CssChunks.FewestChunks | web_framework.go:3719-3726 | no in-order grouping with the same limit uses fewer chunks |
| CssChunks.Rebalance | web_framework.go:3734-3746 | moves units from the last but one chunk, each move needed and allowed, until one more would not be |
| CssChunks.BalancedChunks | web_framework.go:3737-3745 | rebalancing keeps order and limit, never leaves a changed donor below the minimum, and stops only for a reason |
| CssChunks.PackUnits | web_framework.go:3708-3751 | the units in order, within the limit, in as few chunks as possible |
| CssChunks.BuildCSSChunks | web_framework.go:3670-3752 | nothing for blank input; the best packing of all units when splitting is asked for, the text is larger than the maximum and there are units; otherwise the whole text; in every case nothing but white space is lost or added |
| TemplateParser.FindTagEnd | web_components.go:1000-1026 | the loop computes the end of the tag |
| TagEnds.TagEndsOutside | web_components.go:1000-1026 | a tag of unquoted characters and quoted stretches, in which a backslash takes the next character with it, ends at the bracket behind them |
| TagEnds.TagEndFound | web_components.go:1000-1026 | conversely, a tag for which an end is found is made of such parts up to a bracket |
| TemplateParser.ParseTemplateAttributes | web_components.go:484-554 | the attribute loop computes the attribute grammar, errors included |
| TemplateParser.ParseOpening | web_components.go:374-391 | tag, self-closing mark and attributes of what stands between the angle brackets |
| TemplateParser.Parser.Parse | web_components.go:277-286 | terminates with the template the grammar gives, or its first error; success means that all input was consumed |
| TemplateParser.Parser.ParseNodeList | web_components.go:288-358 | children up to the closing tag expected, which it compares ignoring case |
| TemplateParser.Parser.ParseElementNode | web_components.go:364-410 | an element with its attributes and children |
| TemplateParser.Parser.ParseClosingTag | web_components.go:412-428 | the name of a closing tag |
| TemplateParser.Parser.ParseComment | web_components.go:430-440 | the text up to the first comment end |
| TemplateParser.Parser.ParseInterpolation | web_components.go:442-452 | the trimmed expression |
| TemplateParser.Parser.ParseDeclaration | web_components.go:454-463 | the declaration as text |
| TemplateParser.Parser.ParseText | web_components.go:465-474 | text up to the next tag or interpolation |
| TemplateSource.ParseOfSource | web_components.go:277-554 | every well-formed source, with attributes bound, quoted in either way, unquoted or without a value, interpolations, comments and declarations, is parsed as the tree it stands for |
| TemplateSource.MismatchRefused | web_components.go:313-328 | inside any open elements, a closing tag that does not name the innermost one up to case is refused with both names, whatever follows |
| TemplateSource.UnclosedRefused | web_components.go:353-355 | a source that ends inside open elements is refused with the name of the innermost one |
| TemplateSource.UnexpectedRefused | web_components.go:277-286 | a closing tag without an open element is refused with its name |
| TemplateSource.PairsIff | web_components.go:288-358 | a pair of tags around a well-formed source is a template if and only if their names are equal up to case |
| TemplateSource.EndlessRefused | web_components.go:412-463 | a comment, interpolation, declaration or closing tag that does not end is refused as such |
| TemplateSource.EndlessTagRefused | web_components.go:364-372 | an opening tag that does not end is refused as such |
| TemplateSource.BadAttributeRefused | web_components.go:484-554 | an attribute without a value behind its equals sign, or without a name in front of it, is refused |
| TemplateRenderer.StaticElementRenders | web_framework.go:1105-1272 | a static tree renders to its markup in every context that is not a component root, whatever scope, slot and owner, and leaves the state alone |
| TemplateRenderer.PrepareFacts | web_framework.go:503-546 | preparation changes nothing but fragments, and each fragment is the markup of its tree |
| TemplateRenderer.SameRawContext | web_render_safety.go:306-333 | preparing the children does not change the template of a script or style |
| TemplateRenderer.FragmentsKeepMeaning | web_framework.go:1011-1103 | rendering with fragments at all levels, in component templates and slots too, gives the same HTML and state as rendering without any, in every context |
| TemplateRenderer.StaticNodesRender | web_render_safety.go:283-304 | no condition, slot, component or expression is reached inside a static tree |
| TemplateMeaning.ListShows | web_framework.go:1011-1071 | a list of nodes renders, in order, to those that are shown: an m-if whose condition holds; a branch behind it, with only blank text and m-else-ifs in between, for which no earlier condition holds and its own, if any, does; every other node, also an m-else outside a chain |
| TemplateMeaning.OneBranch | web_framework.go:1018-1064 | of the branches of a chain at most one is shown, and exactly one when there is an m-else |
| TemplateMeaning.LeafWrites | web_framework.go:1073-1095 | text and comments write themselves; an interpolation writes text without markup that reads as its value, or nothing when it fails |
| TemplateMeaning.EscapedMeans | web_framework.go:1083-1083 | escaped text reads back as the text and has no bracket or quote |
| TemplateMeaning.HiddenWritesNothing | web_framework.go:1105-1114 | an element whose m-if does not hold writes nothing |
| TemplateMeaning.ElementWrites | web_framework.go:1155-1272 | an ordinary element writes its tag, its attributes, its reveal classes unless a class attribute took them, its scopes, its children in its own scope and its end tag; nothing follows an attribute that fails; a void element ends with its start tag |
| TemplateMeaning.AttributesInOrder | web_framework.go:1160-1215 | attributes are written in order up to the first whose expression fails |
| TemplateMeaning.EventWrites | web_framework.go:1161-1171 | an event attribute writes the escaped handler under the name of its event |
| TemplateMeaning.BoundWrites | web_framework.go:1189-1212 | a bound attribute writes its value under the name behind the colon, and adds the reveal classes to a class |
| TemplateMeaning.PlainWrites | web_framework.go:1181-1215 | any other attribute writes its name and escaped value, and a class takes the reveal classes in |
| TemplateMeaning.DirectiveWritesNothing | web_framework.go:1173-1179 | structural directives, references and other directives write nothing |
| TemplateMeaning.RevealMeans | web_framework.go:1274-1301 | the reveal classes are those of the kind and the speed that the last plain attributes give, with a slide for a kind that is no word |
| TemplateMeaning.UniqueScopes | web_framework.go:1220-1232 | scope attributes are written once each, the element's own first |
| TemplateMeaning.RawByPosition | web_render_safety.go:306-333 | the body of a script or style with text and expressions only becomes its text with the numbers of the expressions in their places |
| TemplateMeaning.SlotWrites | web_framework.go:1118-1139 | a slot writes the content the instance was given, in the scope and under the owner of the place it was written in, or its own children without content |
| TemplateMeaning.InstanceWrites | web_framework.go:1311-1430 | an instance writes its component's template with the scope its own logic left, its children as the slot's content, and on its roots the scope attributes of its owner and of the roots it stands in |
| TemplateMeaning.SlotShowsContent | web_framework.go:1118-1139 | the two together: the content of an instance whose component is a slot is rendered in the scope of the instance's place, not in the component's |
| TemplateMeaning.TemplateSeesOwnScope | web_framework.go:900-926 | an expression in a component's template is evaluated in the scope its own logic left, not in that of the instance's place |
| TemplateMeaning.ClientOnlyWrites | web_framework.go:1141-1153 | the children of a client-only element are rendered in place of it, with every component put off |
| TemplateMeaning.HydrationMeans | web_framework.go:1142-1148 | they start as the first of its hydrate attributes with a value says, otherwise when idle |
| TemplateRoundTrip.ParseOfMarkup | web_components.go:277-554 | parsing the HTML of a plain tree gives the tree with its attribute values escaped |
| TemplateRoundTrip.SameNodes | web_framework.go:1214-1214 | escaping leaves the tree as it is if and only if no value needs it |
| TemplateRoundTrip.ParseInvertsRender | web_framework.go:1011-1272 | a plain tree rendered with fragments in any context parses without error, and to itself if and only if no attribute value needs escaping |
| StatePlaceholders.ReplaceRuntimeStateTokens | web_framework.go:2775-2804 | the loop replaces the value of every state attribute that is a key, and nothing else |
| StatePlaceholders.ReplaceText | web_framework.go:2775-2804 | in a text of state attributes and other text, every value is replaced by what it is mapped to, if anything, and all else keeps its place |
| StatePlaceholders.EveryTextReads | web_framework.go:2782-2795 | every text is of that form, which includes one that holds no state attribute or an unclosed one |
| StatePlaceholders.ReplaceCachedDocumentMarkers | web_framework.go:2854-2881 | the loop replaces every marker that is a key, and nothing else |
| StatePlaceholders.NextMarker | web_framework.go:2860-2872 | the next marker from an offset, or none |
| StatePlaceholders.MakePlaceholders | web_framework.go:2754-2761 | one placeholder per runtime state, pairwise distinct and none the root's or the nonce's, each standing for its state |
| StatePlaceholders.StateMarkersDiffer | web_framework.go:2758-2758 | different numbers give different placeholders |
| StatePlaceholders.FillText | web_framework.go:2854-2881 | filling the text of a document whose markers are its only marker text fills exactly its holes |
| StatePlaceholders.Transparent | web_framework.go:2762-2763 | in HTML without marker text of its own, filling the placeholders later gives the same text as replacing the tokens directly |
| StatePlaceholders.CleanIff | web_framework.go:2854-2881 | text can stand in front of a marker without giving the search another place if and only if it holds no marker prefix and does not end in the start of one |
| StatePlaceholders.TokenPageText | web_framework.go:2782-2820 | replacing the state tokens of HTML writes its page, whose holes are the state attributes |
| StatePlaceholders.FilledPage | web_framework.go:2854-2881 | a page written with markers and filled later is the page written with the fresh values |
| StatePlaceholders.CachedDocumentTransparent | web_framework.go:2822-2852 | a document written with the placeholders made for its states, and filled on a request with one fresh token per state, is the document written with these tokens, the nonce and the root token, provided its text holds no marker text and no text in front of a token or nonce ends in the start of one |
| Idempotency.ResponseInterceptor.WriteHeader | idempotency.go:48-53 | the first final status wins |
| Idempotency.ResponseInterceptor.Write | idempotency.go:54-64 | appends while the limit holds, then fails for good |
| Idempotency.RecordedExactly | idempotency.go:36-64 | a recording fails if and only if the handler writes more than 1 MiB in all; otherwise it has every byte and the first final status |
| Utf8.SameUnits | idempotency.go:66-70 | byte strings that the JSON encoding makes alike have the same length, and are equal if one of them is valid UTF-8 |
| Utf8.AloneIff | idempotency.go:66-70 | a byte string is the only one that the JSON encoding turns into what it turns it into, if and only if it is valid UTF-8 |
| Utf8.RepairedIff | idempotency.go:136-138 | encoding and decoding leaves a byte string alone if and only if it is valid UTF-8 |
| Idempotency.InvKept | idempotency.go:109-159 | every step keeps the invariant that ties flights, runs, store and answers together |
| Idempotency.OneRunAtATime | idempotency.go:112-121 | in every interleaving at most one handler run per key is in flight, and none while a valid response for the key is stored |
| Idempotency.StoredStops | idempotency.go:113-121 | a stored response stops every further run of its key and is not replaced until it expires or is lost |
| Idempotency.RunStarts | idempotency.go:113-122 | a step starts a run for a key if and only if it is a look-up that finds no valid response |
| Idempotency.ServedTheRightResponse | idempotency.go:146-159 | a response is served only to a request that agrees in everything, as the JSON encoding leaves it, with the one whose run made it, so to an equal one if either is valid UTF-8; its body is all that run's handler wrote, its status the settled one, its headers those the handler gave but Set-Cookie and X-Request-Id, up to repair by the store; without the replay mark it goes to that very request |
| Idempotency.OnlyEqualServedIff | idempotency.go:66-159 | in every execution the response made for a request is served to equal requests only, if and only if every byte string of the request is valid UTF-8 |
| Idempotency.SameKeyAndFingerprint | idempotency.go:109-110 | requests of which one is valid UTF-8 share key and fingerprint if and only if they are equal; bodies with one fingerprint have one length |
| Idempotency.AloneIffWellEncoded | idempotency.go:66-110 | a request is the only one with its key and fingerprint if and only if every byte string of it is valid UTF-8 |
| Idempotency.ConflictExactly | idempotency.go:150-153 | of those that a finished run answers, a request is refused if and only if its fingerprint differs from that of the run's request, and served otherwise |
| Idempotency.BrokenBodiesCollide | idempotency.go:66-70 | a run in which a POST request with the body FE gets the response made for the body FF |
| Idempotency.StoredAsMade | idempotency.go:129-140 | only 2xx and 3xx responses are stored, each with the body, status and headers of its run in the same sense, for a day from the run's return |
| Idempotency.SuccessIsStored | idempotency.go:132-140 | with a cache, a 2xx or 3xx response is served only after it was handed to the store, and stored if that succeeded |
| Idempotency.Explained | idempotency.go:141-159 | a response is marked as replayed unless it was made for this very request and nobody else waited for it; an error means that the handler wrote more than 1 MiB, a panic that it panicked |
| Idempotency.AnsweredOrWaiting | idempotency.go:112-145 | every request that entered is either answered or a member of one flight, never both |
| ServerLifecycle.WorkInvKept | timeout.go:114-136 | every step of requests, handlers, handlers inside them and tasks keeps the work counter, the reference counts and the slots exact |
| ServerLifecycle.CountedKept | lifecycle.go:8-16 | the counter is the number of frames, handlers and tasks admitted and not finished |
| ServerLifecycle.OnlyLiveLeases | loadshedding.go:18-22 | a reference is only added to or taken from a lease that has one |
| ServerLifecycle.LeaseConservation | loadshedding.go:40-51 | occupied slots are the requests with a live leased frame or handler, timed out or not, never above the limit; each slot is given back exactly once, when the last of them is done |
| ServerLifecycle.AdmittedIff | loadshedding.go:24-51 | a request, handler or task is admitted if and only if no shutdown has been called; a request gets a slot if and only if fewer requests than the limit hold one |
| ServerLifecycle.DrainBeforeClose | lifecycle.go:24-46 | dependencies start to close only after every loop the cron manager had was stopped and all admitted work has finished; nothing is admitted from then on |
| ServerLifecycle.FinishedMeansClosed | lifecycle.go:47-53 | shutdown reports through its channel only after the dependencies were closed |
| ServerLifecycle.LateJobIsLive | cron.go:44-61 | a run in which a job added after the stop has a live loop when dependencies close |
| ServerLifecycle.NoLateJobs | cron.go:44-61 | when dependencies close, the loops live are exactly those added since the cron stop that have not ended, and no loop was live at any moment in between if and only if no job was added |
| TimeoutWriters.TimeoutWriter.Write | timeout.go:42-53 | a body write goes out with the current headers unless the request has timed out |
| TimeoutWriters.TimeoutWriter.WriteHeader | timeout.go:55-76 | informational statuses pass, a final one only first and before the timeout |
| TimeoutWriters.TimeoutWriter.Flush | timeout.go:78-91 | a flush commits the response unless the request has timed out |
| TimeoutWriters.TimeoutWriter.TimeOut | timeout.go:148-168 | the timeout page goes out only if the handler has not started its response |
| TimeoutWriters.TimeoutWriter.SyncHeader | timeout.go:32-40 | the client's headers become exactly the handler's |
| TimeoutWriters.PageOrResponse | timeout.go:148-168 | wherever the timeout falls among the handler's calls, the client gets what went out before, or that and the page if the response had not started, and nothing later |
| TimeoutWriters.OneFinalStatus | timeout.go:55-76 | at most one final status goes out, and none behind a body or a flush |
| TimeoutWriters.EveryByte | timeout.go:42-53 | without a timeout every byte the handler writes goes out in order |
| TimeoutWriters.AsWritten | timeout.go:32-91 | without a timeout the client gets, in order, what the handler's calls say: each with the headers set by then, and of the final statuses only one that comes before any body, flush or other final status |
| SelectorSearch.ParseSelector | htmlparser.go:181-216 | the loop computes the rule of the simple selectors of the text |
| SelectorSearch.RuleOfWritten | htmlparser.go:181-216 | a written compound selector is parsed as its tag, its last identifier and all its classes in order |
| SelectorSearch.RuleMeansAllIff | htmlparser.go:181-247 | a node that satisfies every simple selector of a compound one satisfies its rule; the converse holds for all nodes if and only if the selector does not ask for two different identifiers |
| SelectorSearch.SelectsWhatIsWritten | htmlparser.go:181-303 | a selector whose words are written compound selectors without two identifiers selects the nodes reached by a chain of descendants that are all that the words ask for |
| SelectorSearch.FieldsAreWords | htmlparser.go:254-257 | the parts of a selector, and the classes of an element, are its words: the text is made of them and white space, some of it between any two |
| SelectorSearch.Matches | htmlparser.go:218-247 | true if and only if the node is an element that satisfies every simple selector |
| SelectorSearch.GetAttr | htmlparser.go:329-336 | the first attribute of the name, or the empty text |
| SelectorSearch.Traverse | htmlparser.go:261-273 | everything at or below a node that satisfies the rule, except the root, each once in document order |
| SelectorSearch.FindDescendants | htmlparser.go:259-274 | exactly the satisfying descendants, in document order |
| SelectorSearch.NextRoots | htmlparser.go:278-291 | exactly the satisfying nodes below any root, each once, in document order |
| SelectorSearch.NewOnesAreLater | htmlparser.go:283-290 | what is below a root but not below an earlier root comes after everything below the earlier ones |
| SelectorSearch.SelectedNext | htmlparser.go:278-297 | a chain for one more part ends below a node that the parts so far select |
| SelectorSearch.QuerySelectorAll | htmlparser.go:249-303 | exactly the nodes reached by a chain of descendants that satisfies the parts in order (section 8.1 of Selectors Level 3), each once, in document order; nothing for no element or a blank selector |
| SelectorSearch.QuerySelector | htmlparser.go:305-311 | the first of them in document order, or none if there is none |
| SelectorSearch.OneListing | htmlparser.go:299-302 | a set of nodes has one listing in document order, so the result is determined |
| CircuitBreakers.CircuitBreaker.AllowRequest | client.go:333-352 | one call: an open breaker becomes half-open after the reset time |
| CircuitBreakers.CircuitBreaker.Success | client.go:354-360 | one call: closed, with no failures |
| CircuitBreakers.CircuitBreaker.Failure | client.go:362-373 | one call: open at the limit, or from half-open |
| CircuitBreakers.LetsThroughExactly | client.go:333-379 | over every history a request is let through if and only if the failures since the last success are below the limit or the last one is longer ago than the reset time; a refusal names that failure |
| HttpRetry.Attempt | client.go:558-629 | one request sent: it ends the call or leaves it ready for a retry |
| HttpRetry.Attempts | client.go:515-639 | the loop: bounded attempts, one body each, every response but the one held or returned closed |
| HttpRetry.Do | client.go:485-640 | at most max(MaxRetries, 0) + 1 attempts; a body that cannot be replayed is sent at most once; every response body obtained is closed exactly once except the returned one, which stays open; no acceptable response is dropped; no early stop without one of five reasons: an acceptable response, a body that cannot be replayed or copied, an ended context, an open breaker; the breaker is asked before every attempt and told, in order, one success for the acceptable response, one failure for each attempt that failed or got another response, and nothing for one that the context ended |
| HttpRetry.CloseOne | client.go:509-513 | closing one held body keeps the account of closed bodies |
| RateWindow.RateLimiter.Handle | ratelimit.go:76-130 | a request is counted in its client's window, and admitted if and only if the count is within the rate; other clients are untouched |
| RateWindow.UpToNow | ratelimit.go:94-105 | in an interval of one window's length at most two windows admit requests |
| RateWindow.RefusedOnlyWhenFull | ratelimit.go:94-118 | a request is refused only when the requests admitted in the time of one window up to it have used up the rate |
| RateWindow.RateBoundIff | ratelimit.go:94-118 | at most twice the rate is admitted in every closed interval as long as the window, if and only if the window is positive or the rate is not |
| RateWindow.BoundIsTight | ratelimit.go:94-118 | on every interval as long as the window some run reaches twice the rate |
| RouteMatch.CompilePattern | router.go:201-223 | the loop computes the segments, up to the first wildcard |
| RouteMatch.CompiledWellFormed | router.go:201-223 | a clean pattern compiles to plain literals with a wildcard only at the end |
| RouteMatch.CompiledOfWritten | router.go:201-223 | a pattern compiles to the segments it was written from |
| RouteMatch.MatchSegments | router.go:232-266 | the loop computes the match and its parameters |
| RouteMatch.FastMatchNoParams | router.go:268-291 | succeeds if and only if the match does, for every pattern and path |
| RouteMatch.CleanPathIsClean | router.go:184-199 | cleaning gives a clean path and leaves it alone the next time |
| RouteMatch.CleanRules | router.go:184-199 | what cleaning does to a path: empty and single-dot parts go, double dots cancel the part in front of them or go at the root, other parts stay |
| RouteMatch.MatchIffInstance | router.go:232-266 | a clean path other than the root matches if and only if it is an instance of the pattern, and the parameters are the texts of the named segments |
| RouteMatch.MatchByTexts | router.go:232-266 | the same with the root case, and with the parameters as the texts of the named segments, the last one of each name |
| RouteMatch.SubstituteInvertsMatch | router.go:232-266 | substituting the parameters gives the path back when names are distinct and the wildcard is named |
| RouteMatch.MatchInvertsSubstitute | router.go:232-266 | matching a substitution of fitting values gives the values back |
| RouteMatch.RootMatches | router.go:225-230 | exactly which patterns match the root path; it is an instance of no pattern but the root's own |
| Routers.Router.Handle | router.go:92-111 | registers a route; the tables keep standing for the registrations in order |
| Routers.Router.HandleFallback | router.go:68-82 | registers a fallback |
| Routers.Router.Serve | router.go:113-182 | ordinary routes before fallbacks, literal ones before those with parameters; a request for the options of a known path gets exactly the methods with an ordinary route for it |
| Routers.Router.Options | router.go:161-182 | exactly the methods whose ordinary routes answer the path |
| Routers.StageAnswers | router.go:118-151 | a stage answers if and only if something registered for it is literally the path or matches it |
| Routers.WhoAnswers | router.go:113-151 | a stage is answered by the last literal route for the path, without parameters; otherwise by the first registered route whose pattern the path is an instance of, with the texts of its named segments; otherwise by nobody |
| Routers.KnownIff | router.go:161-175 | the methods named for a path are those with an ordinary route that is literally the path or has it as an instance |
| Routers.LaterRegistration | router.go:108-111 | a later registration takes a path over only with a literal route for it |

## Left out

- TagProtocol.Coherent: a page render, a store and an invalidation are atomic steps, version values never repeat and the store keeps tag keys; a render that overlaps an invalidation, and the window between reading a missing version and writing its default, are below this step size.
- DocumentProtocol.DocumentsCoherent: gives a sufficient condition; a foreign document built from a result that happens to be fresh is coherent too, until one of its own tags is invalidated.
- RenderAge.AgeBound: a render and the stores behind it read one clock in one step, so the time a render takes is not counted; all processes have the same clock.
- Idempotency.OneRunAtATime: is about one process and one middleware; two processes may run the same key at once.
- Idempotency.ServedTheRightResponse: takes the hash of the JSON text as injective and the names of response headers as valid text, and starts where the request's body has been read; the earlier refusals (scope, key length, body size) are not modelled.
- RenderReuse.SharedReuse: the store's own expiry of a key, which is no earlier than the ttl and stale time together, counts as a loss.
- HttpRetry.Do: the random delay, the backoff times and the metrics are not modelled; a breaker may be changed by other requests between any two of its calls, and a context may end at any time.
- CircuitBreakers.LetsThroughExactly: the breaker's methods are atomic and its failure counter does not wrap.
- RateWindow.RateBoundIff: one client's requests are handled one at a time and its entry is not evicted; a window reset that races with a count is below this step size.
- ServerLifecycle.LeaseConservation: one server in the process, and one load shedding layer per request; requests for profiles take no slot, and those that maintenance mode answers are never admitted.
- ServerLifecycle.DrainBeforeClose: a server without a cron manager is one whose manager has no loops.
- TimeoutWriters.PageOrResponse: a handler that panics is not modelled; the timeout layer then writes nothing and passes the panic on.
- SelectorSearch.QuerySelectorAll: the HTML parser that makes the tree is not modelled.
- StatePlaceholders.CachedDocumentTransparent: the pass that makes the page is not modelled, neither its rewriting of inline styles nor the final pass that puts the nonce into script and style tags and compacts text; it is taken to copy the tokens, the nonce and the root token it is given unchanged into the same places of the page, so a page is any text with any such holes. Public static documents, which have no placeholders, are not modelled.
- TemplateMeaning.BoundWrites: how a value that is no text becomes an attribute (`writeDynamicHTMLAttribute`) is an arbitrary function.
- TemplateRenderer.FragmentsKeepMeaning: expressions, dynamic attributes, script and style templates and a component's server logic are arbitrary functions; `fuel` bounds the nesting of component instances; rendering is modelled on values, without the builder it appends to and without cancellation in the middle of a render.
- TemplateParser.Parser.Parse: error positions are not modelled; text is code points, and the program's test of single bytes for white space is modelled by which characters hold such a byte in UTF-8 (85 or A0). Such a character ends a name or word as it does in the program, but the cut is made behind it where the program's is inside it, which no code point can express.
- TemplateSource.ParseOfSource: is about sources in which no name has a character that holds byte 85 or A0 in UTF-8 and no quoted value leaves a backslash in front of its closing quote.
- TemplateSource.BadAttributeRefused: the bad attribute stands behind one space, the first of the attributes in front of it too.
- TemplateParser.ParseTemplateAttributes: cuts behind, not inside, a character that holds byte 85 or A0, as above; exact for all other text.
- TemplateParser.ParseOpening: cuts behind, not inside, a character that holds byte 85 or A0, as above; exact for all other text.
- TemplateParser.Parser.ParseNodeList: inherits that cut.
- TemplateParser.Parser.ParseElementNode: inherits that cut.
- TemplateParser.Parser.ParseClosingTag: inherits that cut.
- TemplateRoundTrip.ParseInvertsRender: is about trees without reveal attributes or non-void self-closing tags, with non-adjacent non-empty texts, and with names none of whose characters holds byte 85 or A0 in UTF-8; other trees have no unique source, and the program splits such names.
- TemplateRoundTrip.ParseOfMarkup: has the same condition on trees and names.
- RuntimeStates.Retention: tokens are fresh and the clock does not run backwards; reading the clock and the critical section behind it are one step, so puts that read the clock in one order and take the lock in the other are below this step size; cloning of properties is the identity.
- PagePlans.StoresAgree: a put is remembered at most once, and the clock, which each step reads once, does not run backwards.
- CssChunks.BuildCSSChunks: sizes are those of UTF-8.
- Invalid UTF-8 is modelled in idempotency keys, fingerprints and responses only.
- Minifiers, the trusted HTML pass, scoped selectors, the hybrid disk cache and sessions: they rest on external tokenizers, regular expressions, file times or shared aliasing.
- Network, mail, database, TLS and WebSocket transport, build tooling and code generation: they drive systems that cannot be seen.
- Header-setting middleware, redirects, logging, metrics and view helpers: they would only add easy members.
