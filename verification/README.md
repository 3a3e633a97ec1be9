# Verified model of the dynamic-DNS updater

This project models the parts of the updater whose correctness is hard to see from any single function, and proves their properties for all inputs and all runs. Nothing in it is run; it is checked with `dafny verify dfyconfig.toml`.

## What is modelled

**Reconciliation of DNS records** (`Addresses`, `Results`, `Sorting`, `Tags`, `Reconcile`, `Execution`, `Cache`, `Handle`, `Recycling`, `Setter`, `Interleaving`). The server is a map from IDs to records of one domain and record type. A call is confirmed, or it goes unanswered with or without having taken effect, or the zone lookup fails. The handle caches the managed records in a heap array that `ListRecords` hands out and later calls edit in place; a cache entry may expire at any time. `SetIPs` and `FinalDelete` run against this handle. `Reconcile` says what a listing makes `SetIPs` decide, `Execution` what a prefix of such a plan has achieved, `Recycling` tells both in terms of the listing and the records alone, and `Interleaving` puts any number of instances with disjoint comment selectors on one domain, the calls of their `SetIPs` and `FinalDelete` arbitrarily interleaved with each other and with writes of others outside all scopes.

**WAF lists** (`Prefixes`, `WafList`). Prefixes are arithmetic on addresses. The list is a map of items behind a handle whose bulk operations may take effect in part when they fail.

**Parsing** (`Tokenizer`, `Grammar`, `PrattSpec`, `Parser`, `Reading`). The tokenizer derived from a grammar's symbols, the checks and tables of the grammar compiler, and the Pratt parser with ordered choice and backtracking, as a class that moves a position. The parser is proved against a recursive specification, and that against derivations. `Reading` has the rules by which known text is tokenized and known tokens are parsed.

**Detection filters** (`Operators`, `Filter`, `FilterSyntax`, `FilterLanguage`) and **domain expressions** (`Domains`, `DomainExpr`, `DomainText`, `DomainTokens`, `DomainRoundTrip`, `DomainKeywords`, `DomainList`, `DomainCalls`). Evaluation, printing, building, the round trip through printer, tokenizer, parser and builder, how unparenthesized filters are read, comma lists of domains, and which atoms of the text each call is read from.

**The semantic linter** (`Lint`, `Completeness`, `Pruning`). Atoms as sets of names, the pairwise tests, the redundancy findings, which findings the meaning of the operands forces, and what removing all flagged terms of a whole expression at once does.

**Hedged trace requests** (`Hedge`). The coordinator, its workers, the buffered channel, the timer and the cancellation of the parent context, as a transition system: between two points where the coordinator can notice its environment it takes one step, and the environment may act before any of them.

**IPv6 host IDs** (`HostBits`, `HostDomains`, `HostTargets`). Bytes and bits of addresses, the grouped, all-or-nothing derivation for all domains, and which derived targets are fit for `SetIPs`.

## Where the code and a promise part ways

- `CreateRecord` caches the metadata it requested, not the metadata in the response. The cache stays exact if and only if the server keeps the comment on the same side of the selector (`Cache.CacheStepIff`); `SetIPs` and the interleaved runs assume that it does, and that each fallback comment matches its own selector, which the configuration reader enforces.
- A final-mode delete leaves the cache inexact if and only if it removed a managed record without being confirmed while the entry was present (`Cache.FinalDeleteStepIff`; an instance is `Cache.FinalDeleteCanGoStale`). The entry is still a superset.
- `exprString` promises to preserve structure, but both operands are printed in the same context, so `a && (b && c)` comes back as `(a && b) && c` (`DomainKeywords.StructureLost`). The expression itself comes back if and only if no argument prints as `is` or `sub` and no chain hangs to the right (`DomainKeywords.ExprStringRoundTrips`); with such an argument the text does not parse at all, and otherwise the meaning and the text are preserved.
- `tautological` does not look for two disjoint exclusions, as in `!is(a.b) || !is(c.d)` (`Lint.DisjointExclusionsMissed`); with an exclusion present, exactly these valid disjunctions go unreported (`Lint.ValidIffTautological`).
- The static value of `sub(.)` would be wrong for the root (`Lint.ConstValueAtRoot`). The updater never asks: the lists that name its domains reject the root for having too few labels (internal/domainexp/list.go:66, internal/domain/domain.go:72-74), so no expression is evaluated on it.
- Detected IPv4-mapped addresses are refused as IPv6 targets (internal/ipnet/ipnet.go:155-161), but derivation can bring one back: entry `::ff00:0:1/88` with host ID `::ff:0:2` gives `::ffff:0:2` (`HostTargets.MappedTarget`). `HostTargets.TargetMapped` says exactly when; a prefix with a set bit among its first 80, as every global unicast prefix has, is safe.

## Assumptions

- A comment selector is an arbitrary predicate on comments. A created record gets an ID that no record of the zone has, and between interleaved instances one that no record ever had: listings of a shutdown pass may be stale (`Interleaving.ReuseWouldBreak`).
- A call that goes unanswered takes effect when it is made or never. A request that the server applies only later, during the next run, is not modelled.
- Nobody else writes records inside an instance's scope; the targets given to `SetIPs` are distinct, valid, unmapped and without zone (for derived ones see `HostTargets.DerivedTargetSet`).
- Text is a sequence of characters. Printed prefixes use digits, `a` to `f`, `.`, `:` and `/`, and read back. A domain or suffix that was once read prints as non-empty text without whitespace and reserved characters that reads back to the same value.
- Grammars, endpoints, worker results and schedules are arbitrary.

## Model

| member | source | states |
|---|---|---|
| `Setter.Reconciler.SetIPs` | internal/setter/setter.go:233-331 | For every server behaviour (each call confirmed, lost, or applied without confirmation): Noop or Updated means the managed records have exactly the targets as unmapped addresses, even when the listing came from the cache. What is decided from the listing is told without the loops: the missing targets in their order; the listed records without a target, those that already bear the settled metadata first, each group by increasing ID; metadata all of these share, or else the fallback. The calls recycle the queue from the front onto the missing targets, then create or delete; whatever changed has a missing target and the settled metadata; an Updated run has dealt with the whole queue, a failed one stops at its first unconfirmed call; the cache stays exact and keeps remembering metadata |
| `Setter.Reconciler.CarryOut` | internal/setter/setter.go:278-331 | The update-or-create loop and the delete loop issue the plan in order, shrinking the list of outdated records, and reach the targets unless a call is not confirmed |
| `Setter.Reconciler.IssueCall` | internal/setter/setter.go:278-324 | One call of the plan through the handle: server and cache move together, and a confirmed call keeps the run on track |
| `Setter.PartitionRecords` | internal/setter/setter.go:69-99 | Records that satisfy a target are bucketed under it in listing order; the others are outdated and the targets without a bucket unmatched, both in order |
| `Setter.UpToDateIffCovered` | internal/setter/setter.go:101-113 | The early return of SetIPs is taken exactly when the managed addresses already are the targets |
| `Setter.ResolveScalarValue` | internal/setter/setter.go:130-142 | The common value of all sources or the fallback, and ambiguity exactly when two sources differ |
| `Setter.ReconcileAndSortRecords` | internal/setter/setter.go:144-227 | Metadata settled field by field; records that already bear it first, each group by IDs that increase by first differing character |
| `Recycling.PlannedDecides` | internal/setter/setter.go:69-227 | The decision so told, for every listing with distinct IDs |
| `Recycling.OrderedMatchingFirst` | internal/setter/setter.go:216-227 | No record that bears the metadata stands behind one that does not, and within either group IDs strictly increase |
| `Recycling.RunOnlyRecycles` | internal/setter/setter.go:278-324 | After any prefix of the calls, what changed has a missing target as address and what the server stores of the settled metadata, and what is gone was in the queue |
| `Recycling.PlanSettles` | internal/setter/setter.go:278-331 | After all calls, record k of the queue is missing target k with that metadata, or gone if there are fewer missing targets |
| `Sorting.StringLeMeans` | internal/setter/setter.go:122-126 | The order of IDs: equal, a proper prefix, or smaller at the first difference |
| `Setter.Reconciler.FinalDelete` | internal/setter/setter.go:334-384 | The calls made are exactly deletes of the listed IDs, in order and each once, all of them unless the context ends after an unconfirmed one; Updated if and only if something was listed and every delete was confirmed, Noop if nothing was listed; only managed records disappear, and a result other than Failed means none is left, starting even from a cache that lists too many records |
| `Setter.Reconciler.DeleteAll` | internal/setter/setter.go:357-384 | The deletion loop issues one delete per ID in order, goes on after failures unless the context is done, reports Updated exactly when all were confirmed, and keeps the cache a superset of the managed records |
| `Execution.PlanStarts` | internal/setter/setter.go:69-99 | From an exact listing, the plan accounts for every managed record and every target |
| `Execution.PlanAdvances` | internal/setter/setter.go:278-324 | A confirmed call of the plan moves it one step on, whatever the metadata stored within the scope |
| `Execution.PlanCompletes` | internal/setter/setter.go:278-331 | A plan carried out to the end leaves exactly the targets |
| `Execution.EmptyPlan` | internal/setter/setter.go:246-261 | The plan is empty if and only if the managed addresses already are the targets |
| `Execution.RunReaches` | internal/setter/setter.go:278-324 | After any number of confirmed calls the run stands where the plan says |
| `Execution.CoveredStaysCovered` | internal/setter/setter.go:278-324 | At every prefix of a run, one cut by a failed call included, a target covered at the start is covered by the same untouched record |
| `Execution.DeletesComeLast` | internal/setter/setter.go:278-324 | When a delete is issued, before and after it, every target is covered |
| `Execution.NeverEmptied` | internal/setter/setter.go:278-324 | A name with managed records never loses them all while there are targets |
| `Execution.PlanIsShortest` | internal/setter/setter.go:69-99 | No sequence of create, update and delete calls that reaches an exact cover is shorter than the plan, that is, than the larger of the unmatched targets and the outdated records |
| `Execution.RecyclesAll` | internal/setter/setter.go:278-310 | A completed plan updates as many records as the smaller of the two counts |
| `Execution.ResolvedInScope` | internal/setter/setter.go:130-142 | The resolved comment is the fallback or that of a managed record, hence in scope |
| `Execution.ScopeIsolation` | internal/setter/setter.go:278-324 | An in-scope call leaves every out-of-scope record in place and adds none, whatever the answer |
| `Execution.DisjointViewUnchanged` | README.markdown:383-393 | A disjoint comment selector sees no effect of it |
| `Reconcile.QueueMembers` | internal/setter/setter.go:69-99 | The queue holds exactly the listed records that satisfy no target, each once |
| `Reconcile.OrderedPermutes` | internal/setter/setter.go:216-227 | Sorting the outdated records loses and duplicates none |
| `Reconcile.ResolutionUnique` | internal/setter/setter.go:144-214 | Resolved metadata is determined and does not depend on the order of its sources |
| `Reconcile.PlanOrderIndependent` | internal/setter/setter.go:144-227 | SetIPs decides the same calls for every permutation of a listing with distinct IDs |
| `Interleaving.InvInductive` | internal/setter/setter.go:233-331 | With any number of instances whose selectors are pairwise disjoint, every action of any instance (a step of SetIPs or of FinalDelete, a cache expiry) and every out-of-scope write by others preserves: caches exact until the shutdown pass and supersets from then on, running plans on track, running passes with nothing foreign to delete |
| `Interleaving.RunInvariant` | internal/api/cloudflare_records.go:242-504 | Hence in every world of every interleaved run |
| `Interleaving.Convergence` | internal/setter/setter.go:278-331 | Whenever an instance returns Noop or Updated, its managed records have exactly its targets |
| `Interleaving.Isolation` | README.markdown:383-393 | While an instance does nothing, its records and its own state stay as they were, whatever the others do, their shutdown deletes from stale listings included |
| `Interleaving.CallsStayInScope` | internal/api/cloudflare_records.go:271-275 | No call of SetIPs or FinalDelete updates or deletes the record of another instance, and every record written is in the own scope |
| `Interleaving.CoverLasts` | internal/setter/setter.go:278-331 | A cover reached by one instance lasts until its own next action |
| `Interleaving.FinalPassClears` | internal/setter/setter.go:357-384 | A shutdown pass that ends with every delete confirmed leaves none of the instance's records, whatever the others did meanwhile |
| `Interleaving.ReuseWouldBreak` | internal/api/cloudflare_records.go:326-334 | The assumption on IDs is needed: if the ID of a stale entry is given to another instance's record, the entry names a foreign record |
| `Interleaving.OthersUnaffected` | internal/config/config_read.go:211-216 | An action of one instance is invisible to every other, given that each fallback comment matches its own selector |
| `Cache.CacheStepIff` | internal/api/cloudflare_records.go:317-504 | A regular-mode call, confirmed or not, keeps a present cache entry exact (on ID, address and scope) if and only if, for a confirmed create that finds the entry present, the server kept the scope of the comment it was sent |
| `Recycling.RememberStep` | internal/api/cloudflare_records.go:317-504 | Every cached record bears the metadata the server has for it, or, as after a create, metadata that the server stores as what it has; regular-mode calls keep it so |
| `Cache.FinalDeleteKeepsSuperset` | internal/api/cloudflare_records.go:317-341 | After final-mode deletes, confirmed or not, a present entry still lists every managed record and names no foreign one |
| `Cache.FinalDeleteStepIff` | internal/api/cloudflare_records.go:326-341 | A final-mode delete leaves a present entry exact if and only if it is not the case that a managed record was deleted without confirmation while the entry was present |
| `Cache.FinalDeleteCanGoStale` | internal/api/cloudflare_records.go:326-334 | A final-mode delete that was applied but not confirmed leaves an inexact entry: a concrete instance |
| `Handle.DeleteInPlace` | internal/api/cloudflare_records.go:336-338 | `slices.DeleteFunc` by ID compacts the shared array in place to exactly the other records in order, clears the rest of the slice and leaves what lies beyond it |
| `Handle.FilterManaged` | internal/api/cloudflare_records.go:271-297 | The listing loop keeps exactly the in-scope records in order, and fails exactly when one of them has unparsable content |
| `Handle.InScopeExact` | internal/api/cloudflare_records.go:271-275 | What it keeps is exactly the managed records of the zone, each once |
| `Handle.CloudflareHandle.ListRecords` | internal/api/cloudflare_records.go:242-314 | A cache hit returns the entry itself, aliased; a miss lists exactly the managed records with the address and metadata the server has, and caches them; a failure caches nothing |
| `Handle.CloudflareHandle.DeleteRecord` | internal/api/cloudflare_records.go:317-341 | Server and cache after a delete, in either mode: a confirmed one removes the record and keeps all others; an unconfirmed one drops the entry in regular mode and keeps it in final mode |
| `Handle.CloudflareHandle.UpdateRecord` | internal/api/cloudflare_records.go:344-443 | Server and cache after an update: dropped when unconfirmed; otherwise the record is cached with the address and metadata the server now has, or is gone with its scope, and all other entries are as before |
| `Handle.CloudflareHandle.CreateRecord` | internal/api/cloudflare_records.go:446-504 | Server and cache after a create: the requested metadata, not the stored one, is cached, and all other entries are as before |
| `Handle.Server.List` | internal/api/cloudflare_records.go:256-269 | A successful listing enumerates the zone, each record once, in some order |
| `Handle.Server.Send` | internal/api/cloudflare_records.go:317-504 | A mutation is confirmed, or unanswered with or without effect |
| `Tags.Canonicalize` | internal/api/tags/tags.go:48-69 | Sorted canonical keys, the least spelling of each, and whether two tags share a key |
| `Tags.CanonicalKeyMeans` | internal/api/tags/tags.go:20-26 | Two tags have the same key exactly when their names before the first colon agree up to case and the rest agrees exactly |
| `Tags.SummarizeSets` | internal/api/tags/tags.go:81-109 | Least spelling and number of containing sets for every key, and whether two sets differ |
| `Tags.SplitKeys` | internal/api/tags/tags.go:125-158 | Keys counted in every set are the inherited ones; all others are dropped |
| `Tags.Resolve` | internal/api/tags/tags.go:125-158 | Inherited: the least spellings of the keys all sets have; dropped: those of the other keys; both in increasing key order; ambiguous if and only if something is dropped |
| `Tags.Equal` | internal/api/tags/tags.go:161-165 | Equality of canonical key sets |
| `Tags.ListsUnique` | internal/api/tags/tags.go:125-158 | That description determines the result |
| `Tags.ResolveOrderIndependent` | internal/api/tags/tags.go:125-158 | Order and repetition of sets and tags do not matter |
| `Tags.AmbiguousIffDropped` | internal/api/tags/tags.go:81-109 | Two sets differ exactly when some key is dropped |
| `WafList.SetWAFList` | internal/setter/setter.go:396-529 | Protected items (unmanaged, of a family without usable targets, or covering a target) stand at every step; what is new is the network of a target nothing covered, with the comment its family's stale items share or the fallback; all targets are covered before anything is deleted; a result other than Failed means every available target is covered and every managed item of a usable family covers a target; on such a list the call does nothing |
| `WafList.PlanFamily` | internal/setter/setter.go:416-466 | One family: creates are exactly the masked uncovered targets, sorted and distinct; deletes exactly the items that cover none; the comment is the one they all bear, or the fallback when there are none or they differ |
| `WafList.PlanList` | internal/setter/setter.go:414-500 | The merged plan creates exactly the missing prefixes, each once and with its family's comment, deletes exactly the stale items of the usable families, none more often than listed, and both lists are sorted by prefix and then by comment or ID |
| `WafList.Classify` | internal/setter/setter.go:423-442 | Which targets are covered and which items are stale |
| `WafList.SafeKeepsCover` | internal/setter/setter.go:425-442 | A covered target stays covered in every safe later state |
| `WafList.CreateIsSafe` | internal/setter/setter.go:487-512 | Creating, even in part, is safe |
| `WafList.CreateCovers` | internal/setter/setter.go:444-512 | Creating everything covers every target |
| `WafList.DeleteIsSafe` | internal/setter/setter.go:514-528 | Deleting stale items, even in part, is safe |
| `WafList.DeleteConverges` | internal/setter/setter.go:487-528 | Deleting them all after creating everything converges |
| `WafList.EmptyPlanIff` | internal/setter/setter.go:476-485 | The plan is empty exactly when the list already is as wanted |
| `Prefixes.ContainmentIsInclusion` | internal/setter/setter.go:534-536 | prefixContainsPrefix decides inclusion of the two address sets, for every pair of prefixes |
| `Prefixes.Outsider` | internal/setter/setter.go:534-536 | Where the test fails, an address of the target outside the container |
| `Prefixes.MaskedSameSet` | internal/setter/setter.go:444-448 | Masking changes no membership and is idempotent |
| `Prefixes.ContainsBits` | internal/setter/setter.go:534-536 | A prefix contains the unzoned addresses of its family that have its first bits |
| `Prefixes.MaskedBits` | internal/setter/setter.go:444-448 | The masked prefix has the first bits of the prefix and no others |
| `Prefixes.UnmapBits` | internal/setter/setter.go:75-84 | Unmapping keeps the last 32 bits of a mapped address, and every other address |
| `Prefixes.MaskedFamily` | internal/setter/setter.go:444-448 | Masking a canonical prefix keeps its family |
| `Domains.UnderTransitive` | internal/domain/suffix.go:65-70 | The dot-boundary suffix relation is transitive |
| `Domains.UnderComparable` | internal/domain/suffix.go:65-70 | Two suffixes of one name are comparable |
| `Domains.UnderChild` | internal/domain/suffix.go:65-70 | A name one label below a suffix lies under it, under what it lies under, and under nothing else |
| `Domains.ParsedByName` | internal/domain/domain.go:90-97 | Parsed domains are determined by their ASCII names |
| `DomainExpr.FlattenMeaning` | internal/domainexp/lint.go:79-85 | A chain means the conjunction or disjunction of its flattened operands |
| `Lint.SubsumesIsInclusion` | internal/domainexp/lint_semantic.go:35-52 | subsumes decides set inclusion over all names, for every mix of is and sub atoms, the root suffix included |
| `Lint.DisjointIsEmptyIntersection` | internal/domainexp/lint_semantic.go:55-68 | disjoint decides empty intersection over all names |
| `Lint.Separation` | internal/domainexp/lint_semantic.go:35-52 | Where subsumes says no, a name that separates the sets, well formed when the atoms are |
| `Lint.Contradictory` | internal/domainexp/lint_semantic.go:362-378 | The nested loops find a clashing pair exactly when there is one |
| `Lint.Tautological` | internal/domainexp/lint_semantic.go:382-395 | The nested loops find a complementary pair exactly when there is one |
| `Lint.ContradictoryIffUnsatisfiable` | internal/domainexp/lint_semantic.go:362-378 | For conjunctions with a positive literal, a clashing pair exists if and only if no name satisfies the conjunction |
| `Lint.ValidIffTautological` | internal/domainexp/lint_semantic.go:382-395 | A disjunction with an exclusion holds of all names if and only if tautological reports it or two exclusions are disjoint, a case it does not look for |
| `Lint.DisjointExclusionsMissed` | internal/domainexp/lint_semantic.go:382-395 | `!is(a.b) \|\| !is(c.d)` holds of all names, and nothing is reported of it |
| `Lint.OrRedundancies` | internal/domainexp/lint_semantic.go:154-168 | Exactly the literals dominated by another one |
| `Lint.AndRedundancies` | internal/domainexp/lint_semantic.go:282-314 | Exactly the literals implied by another one |
| `Lint.OrSurvivor` | internal/domainexp/lint_semantic.go:154-168 | Domination is acyclic under the index tie-break: a literal that holds has an unflagged dominator that holds |
| `Lint.AndSurvivor` | internal/domainexp/lint_semantic.go:298-312 | The dual for conjunctions |
| `Lint.OrRedundancyPreserves` | internal/domainexp/lint_semantic.go:154-168 | Dropping every flagged literal at once preserves the disjunction on all names |
| `Lint.AndRedundancyPreserves` | internal/domainexp/lint_semantic.go:298-312 | Dropping every flagged literal at once preserves the conjunction on all names |
| `Lint.UnparsedCounterexample` | internal/domainexp/lint_semantic.go:154-168 | It needs parsed domains: two spellings of one ASCII name would flag each other |
| `Lint.AnalyzeConjunction` | internal/domainexp/lint_semantic.go:282-314 | Exactly the constant, redundant-constant and redundant-literal findings of the operands |
| `Lint.AnalyzeDisjunction` | internal/domainexp/lint_semantic.go:316-351 | The same for disjunctions, looking inside multi-argument calls |
| `Lint.ConjunctionReduces` | internal/domainexp/lint_semantic.go:282-314 | An and-chain means the same without all its redundant terms |
| `Lint.DisjunctionReduces` | internal/domainexp/lint_semantic.go:316-351 | An or-chain means the same without all its redundant terms, call arguments included |
| `Lint.CallReduces` | internal/domainexp/lint_semantic.go:191-197 | A call means the same without all its redundant arguments |
| `Lint.ConjunctionConstant` | internal/domainexp/lint_semantic.go:282-297 | A conjunction reported constant is false on every name |
| `Lint.DisjunctionConstant` | internal/domainexp/lint_semantic.go:316-343 | A disjunction reported constant is true on every name |
| `Lint.ConstValueSound` | internal/domainexp/lint_semantic.go:235-280 | A static value is right on every name but the root |
| `Lint.ConstValueAtRoot` | internal/domainexp/lint_semantic.go:235-280 | The root is a genuine exception |
| `Lint.SemanticFindings` | internal/domainexp/lint_semantic.go:170-211 | A finding is reported if and only if some chain, some call, or the whole expression gives it |
| `Lint.ReportedConstants` | internal/domainexp/lint_semantic.go:170-211 | Every reported constant is the value of its chain or expression on all names but the root |
| `Completeness.ContradictionReported` | internal/domainexp/lint_semantic.go:282-297 | Two operands of a conjunction anywhere in the expression, a one-argument call and a one-argument call or the negation of one, that no name satisfies together, are reported as never true |
| `Completeness.TautologyReported` | internal/domainexp/lint_semantic.go:316-343 | A one-argument call and the negation of one in a disjunction of which every name satisfies one are reported as always true |
| `Completeness.ImpliedOperandReported` | internal/domainexp/lint_semantic.go:298-312 | A one-argument call implied by another one of the same conjunction is reported |
| `Completeness.CoveredArgumentReported` | internal/domainexp/lint_semantic.go:154-168 | An argument whose names another argument of the same disjunction, or of the same call, also has, is reported |
| `Completeness.ConstantOperandReported` | internal/domainexp/lint_semantic.go:282-351 | A constant operand is reported as deciding its chain or as adding nothing to it |
| `Completeness.ConstValueIff` | internal/domainexp/lint_semantic.go:235-280 | The static value is v if and only if v is the value whatever the calls other than sub(.) say, each occurrence by itself |
| `Completeness.AlwaysTrueIff` | internal/domainexp/lint_semantic.go:213-218 | sub(.) is the one one-argument call that holds of every name but the root |
| `Completeness.StaticValueReported` | internal/domainexp/lint_semantic.go:198-211 | An expression with sub(.) in it that has one value whatever its other calls say is reported as constant |
| `Completeness.NodesAreParts` | internal/domainexp/lint.go:175-184 | The walk visits exactly the parts of the expression |
| `Pruning.PruneKeepsMeaning` | internal/domainexp/lint_semantic.go:282-351 | Removing every term reported as redundant, from all chains and calls of an expression at once, changes no verdict on any name |
| `Pruning.FlaggedAreReported` | internal/domainexp/lint_semantic.go:170-197 | The literals removed from a chain are exactly those its analysis reports |
| `Pruning.FlagsGrow` | internal/domainexp/lint_semantic.go:154-168 | What is reported of part of a chain, an inner chain or a call, is reported of the whole chain too |
| `Tokenizer.NewTokenizer` | internal/syntax/tokenizer.go:19-32 | The table holds exactly the declared symbols, longest first, and exactly their leading characters |
| `Tokenizer.Tokenize` | internal/syntax/tokenizer.go:46-87 | The loops compute the token list specified by recursion on the text |
| `Tokenizer.MatchSymbolLongest` | internal/syntax/tokenizer.go:35-43 | The symbol found is the longest declared one at the position |
| `Tokenizer.TokenizeIsLossless` | internal/syntax/tokenizer.go:46-87 | Tokens are maximal slices of the input in order, everything between them is whitespace, atoms contain no reserved character and no whitespace, and EOF ends the list |
| `Tokenizer.LexFails` | internal/syntax/tokenizer.go:58-66 | The only failure is a character that begins a symbol where no declared symbol stands, reported at that character |
| `Tokenizer.SpansIncrease` | internal/syntax/tokenizer.go:46-87 | Spans increase and are disjoint |
| `Tokenizer.RetokenizeStable` | internal/syntax/tokenizer.go:46-87 | Tokenizing the space-joined texts gives back the same tokens up to spans |
| `Tokenizer.LexBySet` | internal/syntax/tokenizer.go:19-87 | Valid tables of the same symbols tokenize every text alike |
| `Sorting.SortPermutation` | internal/setter/setter.go:122-126 | Sorting does not depend on the order of its input when nothing ties |
| `Sorting.CompactSorted` | internal/syntax/tokenizer.go:22-24 | On a sorted list, removing adjacent duplicates removes all of them |
| `Parser.NewPratt` | internal/syntax/compiler.go:25-112 | A grammar is accepted if and only if it is valid with some token table (whichever: tokenizing depends on the symbol set alone), and then its maps hold its rules in declaration order |
| `Parser.CheckForm` | internal/syntax/compiler.go:44-71 | A form passes exactly when it is a valid null, left or implicit rule |
| `Parser.CheckKeywords` | internal/syntax/compiler.go:82-97 | Keywords pass exactly when each reads back as one atom |
| `Parser.PrattParser.ParseExpression` | internal/syntax/parser.go:56-86 | Consuming, checkpointing and restoring the position computes the specified parse, and leaves the position where it says |
| `Parser.PrattParser.ParseNull` | internal/syntax/parser.go:90-113 | The same for null forms with ordered choice and backtracking |
| `Parser.PrattParser.SelectLeftForms` | internal/syntax/parser.go:126-143 | The eligible explicit left forms, or the implicit ones before a token that can start an expression |
| `Parser.PrattParser.ParseFormTail` | internal/syntax/parser.go:152-173 | The parts of a form in order |
| `Parser.PrattParser.Expect` | internal/syntax/parser.go:187-196 | A matching token is consumed; any other is reported and left |
| `Parser.PrattParser.Consume` | internal/syntax/parser.go:41-47 | Never past EOF |
| `Parser.Parse` | internal/syntax/parser.go:13-33 | Tokenize, parse, and accept only a tree that leaves nothing but EOF |
| `PrattSpec.ParseDerivesInput` | internal/syntax/parser.go:13-33 | For every valid grammar and input, a successful parse returns a derivation of the whole token list, in which each left form binds at least as tightly as its hole asks, with every token exactly once and spans to match |
| `PrattSpec.ExpressionDerives` | internal/syntax/parser.go:56-86 | What parseExpression consumes is derived by its tree, at the binding power asked for |
| `PrattSpec.ExpressionIsGreedy` | internal/syntax/parser.go:56-86 | An expression ends where no form extends it at the binding power asked for |
| `PrattSpec.DerivesConserves` | internal/syntax/parser.go:152-173 | A derivation holds exactly the tokens it derives |
| `PrattSpec.FarthestReported` | internal/syntax/parser.go:65-122 | Null and left alternatives alike: the first that succeeds is taken, and if all fail the first of those that reached farthest is reported |
| `Grammar.NoRuleForEOF` | internal/syntax/parser.go:126-148 | No rule is ever looked up by EOF |
| `Reading.TextParses` | internal/syntax/parser.go:13-33 | Text that tokenizes to given keys parses exactly as those keys do |
| `Filter.Partition` | internal/ipfilter/filter.go:44-53 | Kept are the entries whose address the filter selects, dropped the others, each in input order, together exactly the input |
| `Filter.EvaluateSelects` | internal/ipfilter/filter.go:57-107 | A filter holds of an entry if and only if the entry's address is in the set the filter stands for, built from sets of addresses with given first bits; the entry's prefix length does not matter |
| `Filter.BuildIsProper` | internal/ipfilter/parser.go:52-92 | The builder yields keep-all only at the top and prefixes only of the family |
| `Filter.GrammarValid` | internal/ipfilter/parser.go:23-30 | The filter grammar passes every check of NewPratt |
| `Filter.StringReads` | internal/ipfilter/filter.go:66-107 | Canonical text tokenizes to the expected tokens |
| `Filter.KeysParse` | internal/ipfilter/parser.go:33-92 | Those tokens parse to a tree that builds the same expression |
| `Filter.FilterRoundTrip` | internal/ipfilter/parser.go:33-45 | For every filter with no nested keep-all, printing, tokenizing, parsing and building gives back the identical expression |
| `Filter.CanonicalTextIsFaithful` | internal/ipfilter/parser.go:33-45 | The canonical text kept with an accepted filter parses to that very filter |
| `FilterSyntax.TokensDecide` | internal/ipfilter/parser.go:23-92 | Text written as operands joined by && and \|\|, however spaced: accepted if and only if every argument is a prefix of the family and keep-all stands alone; the filter then holds exactly of the entries for which, in some segment between \|\|, all operands hold, with ! on the next operand only; otherwise rejected for the first argument or keep-all that is wrong, and for what is wrong with it |
| `FilterSyntax.TextDecides` | internal/ipfilter/parser.go:23-92 | The same of the text with single spaces around the operators |
| `FilterSyntax.FormulaRead` | internal/syntax/parser.go:56-86 | Operands are joined from the left to segments, and segments from the left to the formula |
| `FilterLanguage.AcceptsExactly` | internal/ipfilter/parser.go:33-92 | The accepted inputs are exactly the texts so written whose arguments are prefixes of the family, or keep-all alone, and they mean what they say |
| `DomainText.BuildIsCall` | internal/domainexp/expression.go:113-142 | Builds if and only if every argument reads as a domain, short ones included, and the k-th domain is then the one the k-th argument reads to; otherwise the first malformed argument is blamed by its span |
| `DomainText.BuildSubCall` | internal/domainexp/expression.go:147-178 | Builds if and only if no argument is malformed; the suffixes are then those the arguments read to, in order, wildcards left out; otherwise the first malformed argument is blamed by its span |
| `DomainText.BuildIsPrintable` | internal/domainexp/expression.go:182-241 | Every argument of a built expression prints as text that reads back to it |
| `DomainCalls.CallDecides` | internal/domainexp/expression.go:113-178 | In every derivation, a call is decided by the atoms between its own parentheses as just said, if nothing but atoms and commas lies there, and is refused otherwise |
| `DomainCalls.FlattensIff` | internal/domainexp/list.go:86-126 | A derived list flattens if and only if nothing but atoms and commas lies in its range |
| `DomainCalls.CallInputDecides` | internal/domainexp/expression.go:263-301 | The same for every input that is one call, as the outcome of parsing it |
| `DomainCalls.CallTextDecides` | internal/domainexp/expression.go:263-301 | name(a, b, ...) parses, and is accepted or rejected for its arguments in that way |
| `DomainCalls.AcceptedSpells` | internal/domainexp/expression.go:182-241 | An accepted expression spells exactly the atoms of the input, in order: constants, keywords, and the arguments that read to its domains and suffixes; nothing written is dropped |
| `DomainCalls.RejectedBlames` | internal/domainexp/expression.go:134-138 | A malformed domain is only ever reported at the first unreadable argument of a call that stands in the input |
| `DomainText.ReassocMeaning` | internal/domainexp/expression.go:304-328 | The left-reassociated form evaluates as the original on every name |
| `DomainText.ReassocLeansLeft` | internal/domainexp/exprstring.go:41-54 | Reassociation yields a left-leaning expression and fixes exactly those |
| `DomainText.ReassocText` | internal/domainexp/exprstring.go:22-60 | Reassociation does not change the printed text |
| `DomainTokens.GrammarValid` | internal/domainexp/expression.go:72-95 | The expression grammar with its list forms passes every check of NewPratt |
| `DomainTokens.LeftSelection` | internal/domainexp/list.go:25-31 | Which forms extend an expression before each token, at each binding power |
| `DomainTokens.ShowReads` | internal/domainexp/exprstring.go:22-60 | Printed text tokenizes to the expected tokens |
| `DomainRoundTrip.BodyParses` | internal/syntax/parser.go:56-86 | Printed tokens parse to the left-reassociated expression in every context they can stand in |
| `DomainRoundTrip.ChainParses` | internal/domainexp/exprstring.go:41-54 | After a left operand, a printed right operand that continues the same chain is taken in term by term |
| `DomainRoundTrip.FullCallParses` | internal/domainexp/expression.go:75-83 | The empty-call form fails on an argument and the argument form is tried from the same place |
| `DomainKeywords.ExprStringReparses` | internal/domainexp/exprstring.go:18-67 | Parsing the printed text gives the left-reassociated expression if and only if no argument prints as `is` or `sub`; otherwise the text does not parse |
| `DomainKeywords.ExprStringRoundTrips` | internal/domainexp/exprstring.go:18-67 | The printed text gives back the expression itself if and only if, besides, no chain hangs to the right |
| `DomainKeywords.StructureLost` | internal/domainexp/exprstring.go:41-54 | `true && (true && false)` prints without parentheses and comes back regrouped |
| `DomainKeywords.ParsedExpressionsReparse` | internal/domainexp/expression.go:263-301 | For every accepted input: the printed expression is accepted again exactly under that condition, and then it leans left, evaluates the same on every name, and prints the same; it is the very same expression exactly when that one leaned left already |
| `DomainKeywords.KeywordCollision` | internal/domainexp/exprstring.go:28-39 | The condition is needed: `is(is.)` is accepted and prints as `is(is)`, which is not |
| `DomainKeywords.CommaKeywordFails` | internal/domainexp/list.go:25-31 | Before a keyword argument the comma is read as trailing, and the missing-comma form fails as well |
| `DomainList.EveryTextParses` | internal/domainexp/list.go:32-46 | Every text parses as a domain list: the only possible faults are in the domains |
| `DomainList.ListExpressionParses` | internal/syntax/parser.go:56-86 | From any token on a list parses, at the loosest binding power to the end of the input |
| `DomainList.FlattenKeepsAtoms` | internal/domainexp/list.go:86-126 | In every derivation by the list forms, of this grammar or the expression grammar, flattening gives exactly the atoms derived, in order, and in the list grammar it never fails |
| `DomainList.ListIsItsAtoms` | internal/domainexp/list.go:40-60 | A domain list is exactly the atoms of the text, in order, whatever the commas |
| `DomainList.ArgumentsAreAtoms` | internal/domainexp/expression.go:113-142 | The arguments of is and sub calls are exactly the atoms between the parentheses, in order |
| `DomainList.ParseList` | internal/domainexp/list.go:40-83 | All domains in order, or the first entry that is no domain or has too few labels |
| `DomainList.ListGrammarValid` | internal/domainexp/list.go:32-35 | The list grammar passes every check of NewPratt |
| `Hedge.InvKept` | internal/provider/protocol/cloudflare_trace_hedge.go:38-187 | Every event (cancellation, timer, worker report, coordinator step) keeps the invariant: started endpoints are a prefix of the list; each is running, on the channel or received, and only one of these; the timer is set while endpoints remain; nothing received earlier succeeded; a winner is stored as succeeded |
| `Hedge.CallTerminates` | internal/provider/protocol/cloudflare_trace_hedge.go:141-187 | Every run takes fewer than 20n + 20 events, and can go on exactly until the call has returned |
| `Hedge.Decreases` | internal/provider/protocol/cloudflare_trace_hedge.go:141-187 | Every event lowers a bound on the events still possible |
| `Hedge.OutstandingDecreases` | internal/provider/protocol/cloudflare_trace_hedge.go:141-187 | 2(n - next) + (started - completed) never grows and drops by one with each launch and each receipt |
| `Hedge.NoDeadlock` | internal/provider/protocol/cloudflare_trace_hedge.go:141-187 | Until the call returns, something other than a cancellation can happen |
| `Hedge.LoopHeadWaitsForSomething` | internal/provider/protocol/cloudflare_trace_hedge.go:141-150 | At the loop head a report is outstanding or a set timer can still launch |
| `Hedge.SendNeverBlocks` | internal/provider/protocol/cloudflare_trace_hedge.go:93-98 | A worker that finishes finds room on the channel |
| `Hedge.ReturnedIsFinal` | internal/provider/protocol/cloudflare_trace_hedge.go:109-131 | Once the call has returned, nothing is left running |
| `Hedge.CallOutcome` | internal/provider/protocol/cloudflare_trace_hedge.go:38-187 | At every return all started workers are drained; a reported winner is stored as succeeded; no winner with a live parent means every endpoint completed and none succeeded; unstarted endpoints keep their initial entry; a timeout is reported exactly when there is no winner and the parent missed its deadline |
| `Hedge.CallWinner` | internal/provider/protocol/cloudflare_trace_hedge.go:37-40 | The winner of a call is the first success received: its report was taken at the loop head while the parent was not canceled and no earlier report had succeeded |
| `Hedge.CancellationWins` | internal/provider/protocol/cloudflare_trace_hedge.go:37-40 | Once the parent is canceled with no success accepted, or on its way to be, no run ends with a winner, whatever succeeds later, and the call reports a timeout exactly when the deadline was missed |
| `Hedge.WinnerIsFirst` | internal/provider/protocol/cloudflare_trace_hedge.go:155-162 | The same from any reachable state |
| `Hedge.FailuresAreAnswered` | internal/provider/protocol/cloudflare_trace_hedge.go:163-166 | At the loop head more endpoints have been launched than are known to have failed, or all have |
| `Hedge.LaunchesHaveCauses` | internal/provider/protocol/cloudflare_trace_hedge.go:37-40 | With a hedge delay, no more endpoints are started than one, and one for each timer expiry taken and each definite failure |
| `Hedge.SentOnce` | internal/provider/protocol/cloudflare_trace_hedge.go:93-98 | No endpoint reports twice |
| `Hedge.ReportedOnce` | internal/provider/protocol/cloudflare_trace_hedge.go:109-115 | Along a run, a report once sent stays on the channel or stored as sent |
| `Hedge.EveryReportStored` | internal/provider/protocol/cloudflare_trace_hedge.go:109-131 | At return every report sent is stored unchanged, so draining overwrites no winner |
| `HostBits.Combine` | internal/hostid6/derive.go:159-165 | The byte loop computes masked prefix or host, byte by byte |
| `HostBits.CombinedBits` | internal/hostid6/derive.go:159-165 | Bit by bit: the prefix bits of the observed address, or the host bit |
| `HostBits.LiteralMaxPrefixLen` | internal/hostid6/derive.go:115-122 | The scan finds the specified bound |
| `HostBits.LiteralBoundTight` | internal/hostid6/derive.go:115-122 | A prefix length is within the bound if and only if it avoids every set bit of the literal |
| `HostBits.MacHost` | internal/hostid6/derive.go:138-157 | The byte assignments build the specified host block |
| `HostBits.MacHostBits` | internal/hostid6/derive.go:138-157 | The lower 64 bits are the Modified EUI-64 identifier of section 2.5.1 and Appendix A of RFC 4291, the upper 64 bits are zero |
| `HostBits.MacHostInjective` | internal/hostid6/derive.go:138-157 | Different MACs have different host IDs |
| `HostBits.DeriveCorrect` | internal/hostid6/derive.go:57-109 | Derive yields t if and only if the derivation fits and t is the address with the top prefix bits observed and the host bits asked for |
| `HostBits.IncompatibleBound` | internal/hostid6/derive.go:57-109 | A reported bound is exactly what the prefix length has to meet |
| `HostTargets.TargetMapped` | internal/hostid6/derive.go:64-105 | A derived target is IPv4-mapped if and only if the prefix is shorter than 96 bits and agrees with ::ffff:0:0 as far as it goes, and the literal agrees with it from there to bit 95 or the MAC begins 02:00:FF |
| `HostTargets.OrdinaryPrefix` | internal/hostid6/derive.go:64-105 | A prefix with a set bit among its first 80 never leads there |
| `HostTargets.MappedTarget` | internal/hostid6/derive.go:67-78 | An accepted entry and literal whose target is IPv4-mapped |
| `HostTargets.MappedAddr` | internal/ipnet/ipnet.go:155-161 | The byte pattern is the mapped block of the numeric model of addresses |
| `HostTargets.DerivedTargetSet` | internal/hostid6/domains.go:54-77 | The derived targets of a domain meet what SetIPs asks of its targets if and only if no derivation of the domain leads to the mapped block |
| `HostDomains.DeriveDomains` | internal/hostid6/domains.go:37-112 | Targets if and only if no asked (domain, entry, derivation) triple is incompatible, each list then strictly increasing and exactly the image; otherwise groups sorted by distinct (kind, bound), one for every failing key |
| `HostDomains.GroupsExact` | internal/hostid6/domains.go:84-100 | Each group lists exactly the domains, derivations and entries of the triples that fail with its key, sorted and without duplicates |
| `HostDomains.TargetsExact` | internal/hostid6/domains.go:54-77 | Each target list is exactly the set of derived addresses |
| `HostDomains.RecordAllSpec` | internal/hostid6/domains.go:59-73 | A builder exists exactly for the keys that some triple fails with, and holds all of those triples in order |
| `HostDomains.AllTriplesAre` | internal/hostid6/domains.go:50-59 | The nested loops visit exactly the asked triples |
| `HostDomains.BuildGroup` | internal/hostid6/domains.go:84-100 | One group from its builder, whatever order the map gives |
| `Sorting.SortCompact` | internal/hostid6/hostid6.go:63-72 | Sorting and compacting lists each element once, in strictly increasing order |

## Left out

- HTTP, DNS over HTTPS, sockets, files, signals, scheduling and notification: input and output. The Cloudflare SDK is not part of this model; the server map stands for it.
- Diagnostics, hints and warnings, and the flags collected only for them.
- IDNA, UTF-8 decoding and `netip` text: abstract codecs.
- Regular expressions behind comment selectors: arbitrary predicates.
- Zone caches and time to live, beyond a cache entry that may vanish.
- `FinalClearWAFList`, and the shape rules of the linter, which claim nothing about meaning.
- Setter.Reconciler.SetIPs: assumes that the server keeps a written comment on the same side of the selector, which the code does not check for created records.
- WafList.SetWAFList: the listing is taken to be current; the cache of WAF lists, which keeps an old view after an unreadable response, is not modelled.
- Tags.Canonicalize: tag names fold case for ASCII letters only.
- Tokenizer.Tokenize: spans count characters, not bytes, and invalid UTF-8 is not modelled.
- Sorting.SortPermutation: sorting is specified as a function; the algorithm of the standard library is not modelled.
- Hedge.InvKept: the coordinator is modelled on values, so the update in place of `run.attempts` is a sequence update; of the delay only the sign is modelled.
- Lint.SemanticFindings: findings name the literal rather than its printed text; their order and repetitions are not stated, the latter because the caller drops equal messages.
