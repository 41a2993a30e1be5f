# Verified models of the Any server's core algorithms

A Dafny 4.11 model of the parts of this repository that are hardest to get right, with proofs of what
they promise. `dafny verify dfyconfig.toml` checks everything.

| files | what they model |
|---|---|
| `Prelude`, `Digraph`, `Strings`, `Dedup`, `StableSort` | shared vocabulary: options, walks and reachability, byte strings, first occurrences, stable sorting |
| `CatalogModel`, `CatalogCycles`, `CatalogOrder`, `SupersedeGroups`, `CatalogRules`, `CatalogReport`, `CatalogClean`, `CatalogReasons`, `CatalogValidate`, `CatalogTheorems` | the usecase catalog: cycle search, setup order, union-find of supersedes edges, the validator, why it reports each problem, and what an empty list buys |
| `AnyUri`, `AnyUriForms`, `TokenScan`, `LinkScanner`, `LinkScannerLaws`, `LinkIndex`, `LinkForms` | any:// URIs: parser and printer, the substring scanner, canonical targets, mentions and link edges |
| `ChatHandler`, `ChatReplica`, `ChatOps`, `ChatSafety`, `ChatConvergence`, `ChatMentions` | the chat message gates, and replicas that apply signed changes through them |
| `EmbeddedProtocol`, `EmbeddedTheorems` | the start/stop protocol of the in-process server as a state machine over critical sections and waits |
| `BlockTree`, `BlockTreeLaws`, `BlockTreeWalk` | the document order of editor blocks |
| `Windows`, `WindowEntries` | grouping blocks into index windows, and the links the entries carry |
| `SearchBudget` | sharing a page's search text among its sections |
| `Sse`, `SseLaws` | the event-stream parser of the client |
| `LoserResolver`, `LoserResolverTheorems`, `LoserResolverGrace` | the resolver of losing bundle roots and its retry loops |
| `DatasetCatalog` | known, retired and pending dataset catalogs of the schema and module chunkers |

One `char` stands for one byte of a Go string, except in `SearchBudget`, where a text is a sequence of
decoded characters. Code that updates state step by step is a class or a method with loops, proved
against a function or a declarative predicate; concurrent code is a state machine whose steps are the
critical sections, waits and oracle answers of the source.

## What the proofs show about the code

- The scanner answers `any://abc` for the text `any://abc.def`, and the parser refuses that answer:
  shedding a glued period can leave a bare id spelled like a kind slug. `AllReadBackIff` gives the exact
  condition on the text.
- A glued word is not shed from a space reference: `any://s/abc.next` is read as the space id `abc.next`, and
  only punctuation is dropped (`any://s/abc.` is `abc`). `GluedIff` says exactly when a URI with something
  glued to it is still found as it is.
- A canonical target reads back as itself exactly when the space id it borrowed is a path segment.
- A reply racing the delete of its target can leave replicas with different mentions, as the comment at
  internal/chat/handler.go:639-653 accepts. `MentionsAgreeIff` says exactly when, for any two causal logs:
  what counts is whether the change that won the text found the target deleted, and whether that text
  already names the author.
- A graceful Stop does not set `stopping`, so a Start that passes its lock while one drains boots beside
  the old engine, and two overlapping Starts both boot. `Clear` is the exact condition, and a host that
  keeps those calls apart always meets it.
- Orphan blocks come out in input order, not in position order as the comment at
  internal/editor/api.go:394-396 has it (`OrphansByPositionIff`, `OrphansOutOfOrder`). Blocks below an
  orphan, and blocks on a parent cycle, are lost (`BelowOrphanIsLost`, `OnCycleIsLost`).
- A read that fails (rather than ends) hands its unfinished line to the parser; if that line is a single
  carriage return inside a frame, a frame is delivered that the whole stream need not contain.
- A Reset or an uninstall that falls between the readiness verdict and the deletion lets a loser be
  deleted with no observation on record (`DropBeforeDeletion`, `OnRecordAtDeletionIff`).
- An observation is dated by a clock read before the lock. A Reset in between leaves a date older than
  itself, and the loser can then be deleted at once (`StaleSampleRun`); `GracePromisedIff` is exact.
- The text eviction resolves the catalog a second time. It stays inside the streamed set exactly when every
  link-only dataset held by the second reading was held by the first (`Page`, `PageAcrossChange`).

## Assumptions

- Chat storage: per-path last-writer-wins by a version all replicas share, the second writer at an equal
  version dropped, a deleted record a tombstone, a create applied before its edits, its deletes and the
  other creates that reply to it, one create per record id.
- Block record ids are distinct and not empty; a space lists each records dataset once.
- Stable sorting, prefix search and trimming behave as the Go standard library documents them.
- Clocks, sync status, registry rows, JSON decoding and callbacks are parameters or events chosen freely.

## Model

| member | source | states |
|---|---|---|
| `CatalogCycles.FindCycles` | internal/catalog/catalog.go:849-888 | a problem is reported if and only if the resolved `requires` graph has a cycle, self-loops included; each reported path is a closed walk of that graph and no path is reported twice |
| `CatalogCycles.CycleFinder.Visit` | internal/catalog/catalog.go:859-882 | one depth-first visit keeps grey = stack, stack = walk, black = finished, finished in dependency order while nothing is reported |
| `CatalogCycles.NoReportNoCycle` | internal/catalog/catalog.go:849-888 | every id finished after its dependencies leaves no room for a cycle |
| `CatalogOrder.Order` | internal/catalog/catalog.go:159-179 | unknown ids are refused; with a trustworthy table the result is the transitive closure, once each, every usecase after all it reaches, the requested one last |
| `CatalogOrder.OrderWalk.Walk` | internal/catalog/catalog.go:166-176 | the recursive walk terminates on any table, lists each id once, and in an acyclic catalog lists an id only after what it requires |
| `CatalogOrder.Closure` | internal/catalog/catalog.go:893-911 | exactly the ids reachable from the usecase, itself included |
| `SupersedeGroups.Forest.Find` | internal/catalog/catalog.go:613-623 | path compression never changes a root: every id keeps its root, the answer is a fixed point of the parent table, and the walk terminates |
| `SupersedeGroups.Forest.Link` | internal/catalog/catalog.go:624-628 | linking merges exactly the two classes of its arguments |
| `SupersedeGroups.UniteAll` | internal/catalog/catalog.go:624-628 | whatever order the map yields its entries, the forest describes connectivity by supersedes edges |
| `SupersedeGroups.RootIffConnected` | internal/catalog/catalog.go:611-650 | same root if and only if connected by supersedes edges |
| `SupersedeGroups.GroupSupersedes` | internal/catalog/catalog.go:611-650 | every linked bundle gets the one group of its component, split in old and new side in catalog order; unlinked bundles get none |
| `CatalogValidate.CollectSupersedes` | internal/catalog/catalog.go:366-387 | the two tables hold exactly the supersedes edges of the whole document |
| `CatalogValidate.HolderNotSharing` | internal/catalog/catalog.go:702-713 | the first holder, in the order they claimed, that neither supersedes nor is superseded by the claimant; empty when there is none |
| `CatalogValidate.Validator.CheckHandle` | internal/catalog/catalog.go:688-713 | adds exactly what is wrong with the handle (ill-formed, built in, or held by the first earlier holder that is no supersedes neighbour), or records the claim; with every earlier claim on record that is nothing if and only if the handle is free |
| `CatalogValidate.Validator.CheckSupersedes` | internal/catalog/catalog.go:482-496 | adds exactly the faults of the list, entry by entry, in order; none if and only if the list has no repeats and each entry is another bundle of the usecase that supersedes nothing itself |
| `CatalogValidate.Validator.CheckUsecase` | internal/catalog/catalog.go:395-507 | adds exactly the faults of the usecase and of each of its bundles, in order, whatever was reported before, and keeps the id, bundle and handle tables equal to what the bundles listed so far claimed |
| `CatalogValidate.Validator.CheckTargets` | internal/catalog/catalog.go:529-585 | adds one broken link per relation target that is neither known nor declared by a usecase in the closure, in order |
| `CatalogValidate.Validate` | internal/catalog/catalog.go:349-587 | the problem list is the report of the catalog, problem by problem in order (the walk, unknown dependencies, cycles, links); it is empty if and only if the catalog is well formed (a declarative definition); the tables are then trustworthy and the groups right |
| `CatalogReasons.BadIds` | internal/catalog/catalog.go:395-427 | a bad id is reported if and only if an id of a usecase or bundle, or a handle, is outside its grammar |
| `CatalogReasons.Duplicates` | internal/catalog/catalog.go:398-430 | exactly: a slug of two usecases, a repeated entry of a requires or supersedes list, a built-in handle, a bundle id listed before (with the usecase of its first listing), or a handle whose first holder that is no neighbour comes before (with that holder) |
| `CatalogReasons.Missings` | internal/catalog/catalog.go:361-410 | exactly an empty catalog and the usecases without bundles |
| `CatalogReasons.UnknownUsecases` | internal/catalog/catalog.go:510-518 | exactly the entries of requires lists that name no usecase with a slug for an id |
| `CatalogReasons.BadFields` | internal/catalog/catalog.go:451-493 | exactly the bundles with both a type and a collection, and the superseded bundles of a usecase that supersede in turn |
| `CatalogReasons.BrokenLinks` | internal/catalog/catalog.go:482-587 | exactly the superseded ids that are no bundle of the usecase, and the relation targets that are neither built in nor reached by the usecase that names them |
| `CatalogReasons.CyclesFound` | internal/catalog/catalog.go:412-519 | exactly what requires or supersedes itself, and beyond that closed walks of the requires graph, some if and only if it has one |
| `CatalogReasons.ClaimsTable` | internal/catalog/catalog.go:688-713 | what a handle's record is when a bundle comes to claim it: each earlier declaration nothing was wrong with, in order |
| `CatalogClean.NothingToReport` | internal/catalog/catalog.go:349-587 | the report is empty exactly for a well-formed catalog |
| `CatalogRules.BundleIdForm` | internal/catalog/catalog.go:395-430 | a bundle id is system:, a slug, /v and a positive decimal without a leading zero |
| `CatalogTheorems.LoadAndOrder` | internal/catalog/catalog.go:159-193 | end to end: with no problem, the order is the closure once each, dependencies first, and every relation target is built in or declared by this usecase or an earlier one |
| `CatalogTheorems.TargetsDeclaredInTime` | internal/catalog/catalog.go:508-585 | the relation-target half of the above, for any setup order |
| `CatalogTheorems.NoChains` | internal/catalog/catalog.go:482-496 | no superseded bundle supersedes another |
| `CatalogTheorems.EdgesCrossOneGroup` | internal/catalog/catalog.go:611-650 | each edge runs from the new side to the old side of one group, and the sides are disjoint |
| `CatalogTheorems.GroupsHaveBothSides` | internal/catalog/catalog.go:611-650 | every group has a new and an old side, both non-empty and disjoint |
| `CatalogTheorems.TwoHolders` | internal/catalog/catalog.go:688-713 | two holders of a handle: one directly supersedes the other, in one usecase, on opposite sides of one group |
| `CatalogTheorems.AtMostTwoHolders` | internal/catalog/catalog.go:702-713 | a handle never has three holders |
| `AnyUri.FindParam` | anyuri/anyuri.go:369-378 | the value of the first pair of that name in the query, empty when no pair has it |
| `AnyUri.RoundTrip` | anyuri/anyuri.go:170-308 | every well-formed URI reads back from its printed form |
| `AnyUri.ParseYieldsWellFormed` | anyuri/anyuri.go:226-308 | everything that parses is well formed: each kind sets its own fields only and no legacy form opens with a kind slug |
| `AnyUri.ParseRoundTrip` | anyuri/anyuri.go:170-308 | for every string that parses, parsing the printed result gives the same URI |
| `AnyUri.StringInjectiveOnParsed` | anyuri/anyuri.go:170-221 | two parsed URIs with the same printed form are equal |
| `AnyUri.PropertyValueForm` | anyuri/anyuri.go:318-324 | the property-value predicate holds exactly for one bare segment that is no kind slug |
| `AnyUri.IdentityValueForm` | anyuri/anyuri.go:326-350 | the identity-value predicate holds exactly for any://u/ followed by base58 |
| `AnyUriForms.IdentityForm` | anyuri/anyuri.go:9-24 | any://u/ and any segment reads as that identity and nothing else, and is how it prints |
| `AnyUriForms.SpaceForm` | anyuri/anyuri.go:9-24 | the same for any://s/ and a space |
| `AnyUriForms.ObjectForm` | anyuri/anyuri.go:9-24 | the same for any://o/, a space and an object |
| `AnyUriForms.RecordForm` | anyuri/anyuri.go:9-24 | the same for any://o/ with a dataset and a record |
| `AnyUriForms.PropForm` | anyuri/anyuri.go:9-24 | the same for any://p/ and a property value |
| `AnyUriForms.FileForm` | anyuri/anyuri.go:9-24 | the same for any://f/ and a file |
| `AnyUriForms.VariantForm` | anyuri/anyuri.go:9-24 | the same for a file with ?variant= |
| `AnyUriForms.MentionForm` | anyuri/anyuri.go:24-31 | the same for the legacy any://m/ form |
| `AnyUriForms.BareForm` | anyuri/anyuri.go:24-36 | the same for any:// and one id that is no kind slug, a legacy form |
| `AnyUriForms.PairForm` | anyuri/anyuri.go:24-36 | the same for any:// with a space and an id |
| `AnyUriForms.FragmentForm` | anyuri/anyuri.go:226-308 | a fragment added to any of these changes nothing else |
| `AnyUriForms.TypedTable` | anyuri/anyuri.go:258-308 | for every letter, number of segments, query and fragment: what is read, and what is refused or of an unknown kind |
| `AnyUriForms.OtherFirstSegments` | anyuri/anyuri.go:240-257 | longer kind slugs are unknown kinds; any other first segment opens a legacy form of one or two segments |
| `AnyUriForms.EmptySegmentRefused` | anyuri/anyuri.go:231-239 | a URI with an empty segment, or an empty path, is refused |
| `AnyUriForms.Base58Alphabet` | anyuri/anyuri.go:334-350 | the alphabet of identities |
| `LinkScanner.ScanToken` | anyuri/links.go:33-58 | the token at a prefix: longest tail, trailing punctuation trimmed, parsed, glued period shed |
| `LinkScanner.ExtractLinks` | anyuri/links.go:18-60 | the jumping loop finds what a position-by-position scan finds, first occurrences by printed form, in order |
| `TokenScan.HitsCompose` | anyuri/links.go:18-60 | for any delimiter byte, the tokens of a+d+b are those of a followed by those of b, whatever a token means |
| `LinkScannerLaws.ScanComposes` | anyuri/links.go:18-60 | for any delimiter byte, scanning a+d+b is the dedup of scanning a and b |
| `LinkScannerLaws.FoundBetween` | anyuri/links.go:18-60 | a well-formed URI of tail bytes with a dotless last id and no trailing punctuation is found between any two delimiters |
| `LinkScannerLaws.GluedIff` | anyuri/links.go:18-89 | for a standalone URI without variant or fragment and any tail bytes glued to it by a period: the text scans to exactly that URI if and only if all that is glued is punctuation, or the URI has a last id and what is left after trimming is harmless |
| `LinkScannerLaws.GluedWordIff` | anyuri/links.go:62-89 | for a glued word, trailing marks included: exactly that URI if and only if it has a last id or the word is all punctuation |
| `LinkScannerLaws.FoundWhenGlued` | anyuri/links.go:62-89 | the same URI is found when a period and any tail bytes are glued to its last id, if what is left after trimming adds no slash, no fragment, and for a file no variant |
| `LinkScannerLaws.FoundGluedBetween` | anyuri/links.go:62-89 | and so it is between any two delimiters |
| `LinkScannerLaws.GluedSpaceIsLonger` | anyuri/links.go:62-89 | a space reference is not shed: whatever is glued to it, trailing punctuation aside, lengthens the space id |
| `LinkScannerLaws.ScanPrintable` | anyuri/links.go:18-89 | every link found is printable and its last id has no dot |
| `LinkScannerLaws.ReparsesIff` | anyuri/links.go:62-89 | a link found reads back as itself if and only if it is not a bare id spelled like a kind slug |
| `LinkScannerLaws.ShortIdDoesNotReparse` | anyuri/links.go:62-89 | the failing family: a slug-like bare id with a glued word |
| `LinkScannerLaws.ScannedNeedNotReparse` | anyuri/links.go:62-89 | one member of it: the text any://abc.def scans to any://abc, which does not read back |
| `LinkScannerLaws.AllReadBackIff` | anyuri/links.go:18-89 | every link of a text reads back if and only if no token of it is a bare id with a dot whose part before the first dot is a kind slug |
| `LinkIndex.CanonicalIsFixed` | anyuri/links.go:91-138 | a canonical target is a fixed point of canonicalisation for every space |
| `LinkIndex.CanonicalReparses` | anyuri/links.go:91-138 | a canonical target reads back as itself if and only if the space id it borrowed is a path segment |
| `LinkIndex.PartIffNotItsObject` | anyuri/links.go:140-166 | a target is a part exactly when it does not print as its object key |
| `LinkForms.CanonicalTable` | anyuri/links.go:91-138 | field by field, for every URI: what its canonical target keeps, and when it has none |
| `LinkForms.ObjectKeys` | anyuri/links.go:91-103 | any://id in a space, any://sp/id and any://o/sp/id are indexed under any://o/sp/id |
| `LinkForms.PartKeys` | anyuri/links.go:91-103 | a record and a property value are indexed under every segment of theirs |
| `LinkForms.IdentityKeys` | anyuri/links.go:91-103 | both identity forms are indexed under any://u/; a space reference under nothing |
| `LinkForms.FileKeys` | anyuri/links.go:91-103 | a file is indexed without its variant |
| `LinkForms.FragmentKeys` | anyuri/links.go:91-103 | any form with a fragment is indexed as without it |
| `LinkForms.ObjectOfTarget` | anyuri/links.go:140-166 | the object a target belongs to, spelled out, and which targets are parts |
| `LinkIndex.ExtractMentions` | anyuri/mentions.go:14-31 | the identities of the scanned links, distinct, in order of first occurrence |
| `LinkIndex.TextLinks` | internal/index/links.go:116-136 | the edges are the distinct canonical targets of the scanned links, with kind and source filled in |
| `LinkIndex.RefLinks` | internal/index/links.go:176-196 | the same for a list of whole references |
| `LinkIndex.TargetsAreSound` | internal/index/links.go:110-136 | targets print pairwise apart, are canonical, come from a link of the input, and are never the source object |
| `LinkIndex.TargetsAreComplete` | internal/index/links.go:110-136 | no target is lost to deduplication |
| `LinkForms.RecordText` | internal/index/links.go:110-136 | from written text to edge: any://o/ with space, object, dataset and record is one edge to that record, even from the object itself |
| `LinkForms.SelfText` | internal/index/links.go:110-136 | a written reference to the source object is no edge |
| `LinkForms.ObjectEdges` | internal/index/links.go:116-136 | the edge of any object or record reference standing alone in a text, the source left out exactly when it is meant as a whole |
| `LinkForms.OtherEdges` | internal/index/links.go:116-136 | the same for identities, property values, files and spaces |
| `LinkForms.RecordsApart` | internal/index/links.go:110-136 | two records of one object in one text are two edges |
| `LinkForms.MentionedIff` | anyuri/mentions.go:14-31 | an identity is mentioned if and only if a link of the text is an identity reference to it |
| `LinkForms.MentionedBetween` | anyuri/mentions.go:1-31 | any://u/ and an id, written between any two delimiters, is a mention |
| `LinkForms.LongerScheme` | anyuri/links.go:32-36 | after a byte of a scheme nothing is found |
| `LinkIndex.MentionEdgesAreMentions` | internal/index/links.go:110-136 | the mention edges of a text are exactly its mentions, in the same order |
| `LinkIndex.TextAndValueAgree` | internal/index/links.go:176-196 | a URI alone in a text and as a value have the same targets |
| `ChatHandler.ValidateCreatePayload` | internal/chat/handler.go:124-209 | the visit accepts exactly the payloads with allowed, well-formed fields and some content, in any field order |
| `ChatHandler.DraftIsPayload` | internal/chat/handler.go:66-209 | an accepted create has no field outside the six allowed, and loses none |
| `ChatHandler.FoldInPromises` | internal/chat/handler.go:654-690 | derived mentions are distinct, at most 64, include the replied-to author, and keep the first 63 text mentions in order |
| `ChatReplica.ApplyOpsIsPutAll` | internal/chat/handler.go:102-111 | applying a modify's ops one by one equals writing what they write judged against the record before them |
| `ChatOps.SetReaction` | internal/chat/handler.go:692-738 | a signed $set of reactions.emoji.signer, as received, stores the time of the change in that register at the version of the change, and touches no other |
| `ChatOps.UnsetReaction` | internal/chat/handler.go:692-738 | a signed $unset of it clears the register, whatever the timestamp, and touches no other |
| `ChatOps.SetText` | internal/chat/handler.go:600-690 | a $set of text by the author stores the text, the time of the edit and the mentions of the new text, and touches no other register |
| `ChatOps.OtherOpsDropped` | internal/chat/handler.go:102-111 | every other op, exactly, leaves every register alone |
| `ChatOps.FirstOpWins` | internal/chat/handler.go:90-111 | of several ops in one change the first that writes a register decides it, dropped ones not counting |
| `ChatOps.NoOpWrites` | internal/chat/handler.go:90-111 | a register none of them writes stays as it was |
| `ChatOps.CreateStores` | internal/chat/handler.go:66-88 | an accepted create, as received, stores each field of the payload, the signer, the time and the mentions, at its version, and no reaction |
| `ChatOps.CreateRefused` | internal/chat/handler.go:43-88 | any other create, or one of a taken id, changes nothing |
| `ChatOps.PayloadTable` | internal/chat/handler.go:124-209 | which payloads are accepted, field by field, in literal names and limits |
| `ChatOps.AttachmentsTable` | internal/chat/handler.go:440-565 | the same for attachments, their ids and entries |
| `ChatOps.AgentTable` | internal/chat/handler.go:327-430 | the same for the agent group |
| `ChatOps.ContextTable` | internal/chat/handler.go:211-266 | the same for the context group |
| `ChatOps.ControlTable` | internal/chat/handler.go:268-325 | the same for the control group |
| `ChatOps.PingedTable` | internal/chat/handler.go:639-690 | exactly who is pinged: the first 64 mentioned, or 63 and an author not among them |
| `ChatOps.DeleteByAuthor` | internal/chat/handler.go:113-120 | a delete by the author leaves a tombstone, any other changes nothing |
| `ChatSafety.EveryRunIsSafe` | internal/chat/handler.go:66-209 | in every run a live message's creator is its creating signer, every reaction leaf holds what a toggle of it wrote that its own account signed, create-only groups are those of the create, there is text, attachments or control, and mentions are distinct and at most 64 |
| `ChatSafety.ReceivedRunIsSafe` | internal/chat/handler.go:66-209 | for every list of changes as received: the same, text within its limit, and every stored group well formed |
| `ChatSafety.CreatePingsRepliedTo` | internal/chat/handler.go:66-88 | an accepted create leaves the live replied-to author among the mentions |
| `ChatSafety.EditPingsRepliedTo` | internal/chat/handler.go:606-690 | an accepted edit that wins leaves the live replied-to author among the mentions |
| `ChatSafety.OnlyOwnersChange` | internal/chat/handler.go:102-120 | text, the time of its last edit, mentions and deletion only by the author, a reaction leaf only by its account, everything else by nobody |
| `ChatConvergence.RunSettles` | internal/chat/handler.go:571-736 | after any causal log a message is absent until created, a tombstone exactly when its author deleted it, and else every register holds the write of the highest version among the changes seen |
| `ChatConvergence.MessagesConverge` | internal/chat/handler.go:66-120 | two replicas with the same changes agree on which messages exist, which are deleted, and all of a live one but its mentions; a delete by anyone else changes nothing |
| `ChatConvergence.RecordsConverge` | internal/chat/handler.go:66-120 | they agree on the whole message when the author of the one it replies to does not delete that one |
| `ChatConvergence.ReplicasConverge` | internal/chat/handler.go:66-120 | whole stores are equal when no message that is replied to is deleted by its author |
| `ChatConvergence.ReceivedReplicasConverge` | internal/chat/handler.go:66-120 | the same for replicas that received the same changes in different orders |
| `ChatConvergence.VerdictsAgree` | internal/chat/handler.go:102-111 | both replicas accept the same ops, and have them write the same when the reply target is kept |
| `ChatMentions.MentionsFollowText` | internal/chat/handler.go:606-690 | in every causal run a live message shows the text of the create or edit with the highest version, and the mentions derived from that text and from the author that change found when it was applied |
| `ChatMentions.MentionsAgreeIff` | internal/chat/handler.go:639-690 | for any two causal logs of the same changes: mentions agree if and only if the winning change found the target in the same state on both, or there is no author for it to fold in, or its text names the author among the first 64 |
| `ChatMentions.DeletedTargetDiverges` | internal/chat/handler.go:639-653 | a reply with any edits, its target deleted last on one replica and first on the other: both orders are causal, and mentions agree if and only if the last text names the author among its first 64 |
| `ChatMentions.FoldInMatters` | internal/chat/handler.go:654-690 | folding an author in changes nothing exactly when the capped text mentions already name it |
| `EmbeddedTheorems.StepKeeps` | internal/embedded/embedded.go:270-382 | every step of every goroutine and call keeps the invariant, given the one condition on a Start passing its lock |
| `EmbeddedTheorems.AtMostOneEngine` | internal/embedded/embedded.go:106-118 | over every interleaving at most one engine is live, and a live one the handle no longer names is booting, cancelled or about to be |
| `EmbeddedTheorems.BootsAfterDrain` | internal/embedded/embedded.go:283-293 | a Start boots only when every earlier run has returned, hard-stopped ones included |
| `EmbeddedTheorems.StoppingOutlivesItsRun` | internal/embedded/embedded.go:109-118 | `stopping` names a hard-stopped run until it has returned, whatever step comes next |
| `EmbeddedTheorems.LateWatcher` | internal/embedded/embedded.go:351-370 | a late watcher leaves a newer `stopping` and its watcher in place |
| `EmbeddedTheorems.ApartIsSafe` | internal/embedded/embedded.go:270-382 | calls that do not overlap (no Start with a Start or a graceful Stop) meet the condition on every run |
| `EmbeddedTheorems.UnclearBreaks` | internal/embedded/embedded.go:276-293 | the condition is exact: from any reachable state that fails it, some continuation has two live engines |
| `EmbeddedTheorems.OverlappingStartsBreak` | internal/embedded/embedded.go:276-293 | two overlapping Starts from scratch boot two engines |
| `EmbeddedTheorems.StartDuringGracefulStopBreaks` | internal/embedded/embedded.go:372-377 | a Start during a graceful Stop boots beside the draining engine |
| `EmbeddedTheorems.GracefulStopRun` | internal/embedded/embedded.go:276-377 | such a run from scratch: start, bind, publish, graceful Stop, Start |
| `BlockTreeWalk.TreeOrder` | internal/editor/api.go:397-434 | for any parent pointers over distinct non-empty ids: terminates, each block at most once, exactly the blocks whose chain reaches the root and those whose direct parent is missing |
| `BlockTreeWalk.TreeWalk.Walk` | internal/editor/api.go:413-420 | the recursive closure appends the pre-order of everything below its parent |
| `BlockTreeWalk.Collect` | internal/editor/api.go:398-403 | children per parent in input order, and the set of ids present |
| `BlockTreeLaws.OrderMembers` | internal/editor/api.go:397-434 | what comes out, and that nothing comes out twice |
| `BlockTreeLaws.LostIff` | internal/editor/api.go:422-433 | a block is lost exactly when its parent is present and its chain never reaches the root |
| `BlockTreeLaws.BelowOrphanIsLost` | internal/editor/api.go:413-433 | a block below an orphan is lost |
| `BlockTreeLaws.OnCycleIsLost` | internal/editor/api.go:413-433 | a block on a parent cycle of any length is lost |
| `BlockTreeLaws.OrphansByPositionIff` | internal/editor/api.go:392-433 | the orphans come out last, by position if and only if the input has them so |
| `BlockTreeLaws.OrphansOutOfOrder` | internal/editor/api.go:392-433 | two orphans listed against their positions stay that way |
| `BlockTreeLaws.SiblingOrder` | internal/editor/api.go:404-410 | the children of a reachable parent come out stably sorted by position |
| `BlockTree.StringLeMeans` | internal/editor/api.go:390-410 | positions compare byte by byte: a beginning of the other, or less at the first byte that differs |
| `BlockTreeLaws.RootedContiguous` | internal/editor/api.go:413-420 | a rooted block is followed at once by exactly the blocks whose chain passes it |
| `BlockTree.TrailFits` | internal/editor/api.go:413-420 | no chain from the root is longer than the ids allow: why the walk ends |
| `StableSort.SortStablySorts` | internal/editor/api.go:404-410 | the sort is sorted, keeps all elements, and keeps ties in order |
| `StableSort.StableSortUnique` | internal/editor/api.go:404-410 | that promise determines the result, so any stable sort will do |
| `Windows.GroupWindows` | internal/editor/window.go:37-77 | the loop computes the windows of the runs, blank ones left out |
| `Windows.RunsAreTheDivision` | internal/editor/window.go:37-77 | the runs are the one division of the document into consecutive runs that break only, and always, at a heading or an overflow |
| `Windows.RunWithinBudget` | internal/editor/window.go:55-60 | a run over 1500 bytes is a single block, and a heading only opens a run |
| `Windows.RunsAreMaximal` | internal/editor/window.go:37-77 | every block joins the open run unless it is a heading or would take the text over 1500 bytes, and only then opens the next |
| `Windows.TextIsJoin` | internal/editor/window.go:69-76 | a window's text is its members' non-empty texts with one line feed between them |
| `Windows.WindowTable` | internal/editor/window.go:18-77 | anchor, members, text and title of a window, and when there is none |
| `Windows.WindowsSplitAtHeading` | internal/editor/window.go:55-60 | the windows of a document are those of its parts around any heading |
| `WindowEntries.RenderEntries` | internal/editor/chunker.go:24-55 | the entries of the windows; read together their links are every block's links, once each, in document order |
| `WindowEntries.LinksConserved` | internal/editor/links.go:37-50 | the conservation law for the entries as a function: no link of an omitted run is lost because blank text has none |
| `WindowEntries.BlankIffTrimmed` | internal/editor/window.go:42-50 | a window is left out exactly when trimming Unicode white space leaves nothing of its text |
| `WindowEntries.RecordIdsDistinct` | internal/editor/window.go:11-16 | no two entries of a document share a record id |
| `WindowEntries.EntryTable` | internal/editor/chunker.go:24-55 | the index entry of a run, field by field |
| `WindowEntries.BlockEdges` | internal/editor/links.go:36-50 | a block's edges are those of its text; a paragraph that is one whole-line link is a card |
| `WindowEntries.EmbedEdges` | internal/editor/links.go:105-132 | a synced-block envelope in an html block is one embed edge to the canonical block it names |
| `WindowEntries.NoEmbed` | internal/editor/links.go:105-132 | any other text is no such envelope |
| `SearchBudget.Truncate` | cmd/anydocs/main.go:376-385 | a prefix of so many characters |
| `SearchBudget.SearchParts` | cmd/anydocs/main.go:353-374 | headings and ids kept, texts cut to a prefix; budgets sum to the limit or the whole text, lie under one water line, and never decrease with length or, at equal length, with position |
| `SearchBudget.FillSpends` | cmd/anydocs/main.go:367-372 | the budgets sum to the lesser of limit and total |
| `SearchBudget.FillLevels` | cmd/anydocs/main.go:367-372 | serving the shortest first caps every section at one level or one above it, in ascending order |
| `SearchBudget.CutsAreLevel` | cmd/anydocs/main.go:353-374 | cut sections differ by at most one character, and none kept whole is more than one longer than a cut one |
| `SearchBudget.NoFairerSplit` | cmd/anydocs/main.go:353-374 | max-min fairness: any split giving one section more takes from one with at most one character more |
| `Sse.ParseStream` | internal/client/subscribe.go:104-166 | frames go out in order until one is refused; otherwise all of them, and the verdict is success, cut or failed read |
| `SseLaws.RoundTrip` | internal/client/subscribe.go:104-180 | parsing undoes line-wise encoding for every list of frames without stray line ends, and finds the stream whole |
| `SseLaws.FramesGrow` | internal/client/subscribe.go:104-166 | the frames of a prefix are a prefix of the frames, for a callback that takes everything |
| `SseLaws.OutputGrows` | internal/client/subscribe.go:104-166 | for any callback: what the parser delivers for a prefix is a prefix of what it delivers for more, and a refusal is final |
| `SseLaws.SucceedsIff` | internal/client/subscribe.go:98-166 | success exactly when the stream ended on a line end, outside a frame, every frame taken; and when it is refused, cut or a failed read |
| `SseLaws.BrokenGrowsIff` | internal/client/subscribe.go:128-165 | for a failed read growth holds on every continuation exactly when the read did not break right after a line-opening carriage return inside a frame |
| `SseLaws.FieldReads` | internal/client/subscribe.go:168-180 | name and value of an encoded field line |
| `SseLaws.SpacedLines` | internal/client/subscribe.go:128-180 | event:, id: and data: lines, spelled out: which part of the frame each sets or extends |
| `SseLaws.BareLines` | internal/client/subscribe.go:168-180 | the same without the space after the colon |
| `SseLaws.IgnoredLines` | internal/client/subscribe.go:136-156 | other fields and comments change nothing |
| `SseLaws.CarriageReturn` | internal/client/subscribe.go:128-136 | a carriage return before the line feed is dropped |
| `SseLaws.NameOnly` | internal/client/subscribe.go:168-180 | a line without a colon is a field with an empty value |
| `SseLaws.BlankLine` | internal/client/subscribe.go:104-135 | a blank line delivers what there is of the frame, without the last line feed of its data, and starts over |
| `LoserResolver.Resolver.Observe` | internal/bundles/bundles.go:755-768 | the section takes the protocol's observation step |
| `LoserResolver.Dated` | internal/bundles/bundles.go:755-768 | exactly the row's losers and the ones dated before have a date: the old one where there was one, else the new |
| `LoserResolver.Resolver.FirstSight` | internal/bundles/bundles.go:773-783 | the date on record, or now, recorded; the step the protocol takes |
| `LoserResolver.Resolver.ClaimRetry` | internal/bundles/bundles.go:793-801 | claimed exactly when nobody held the claim; the step the protocol takes |
| `LoserResolver.KeyInjective` | internal/bundles/bundles.go:755-768 | different losers have different keys when space ids have no slash |
| `LoserResolver.RetryKeyInjective` | internal/bundles/bundles.go:716-750 | different claims have different retry keys when space and root ids have no slash |
| `LoserResolverTheorems.FirstSinceMeans` | internal/bundles/bundles.go:752-768 | the date is that of the first sighting since the key was last dropped |
| `LoserResolverTheorems.DatesAreFirstSightings` | internal/bundles/bundles.go:755-791 | in every run the kept date is that of the first sighting since the last forget or Reset |
| `LoserResolverTheorems.DeletionsAreRight` | internal/bundles/bundles.go:632-666 | in every run each deletion is of a claimed loser that is not the winner of the row read, judged quiescent, at least Grace after the date of the sighting then on record |
| `LoserResolverTheorems.OnRecordAtDeletionIff` | internal/bundles/bundles.go:643-666 | that sighting is still the one on record at the deletion if and only if neither a forget nor a Reset came in between |
| `LoserResolverGrace.DeletionsAreTimely` | internal/bundles/bundles.go:755-783 | in every run where no forget or Reset falls between an observation's clock and its lock, each deletion verdict is at least Grace after the last forget or Reset before it |
| `LoserResolverGrace.GracePromisedIff` | internal/bundles/bundles.go:755-783 | from any reachable state: no continuation deletes on a record within Grace of the last drop if and only if the record's date is no older than the drop, or the period is over |
| `LoserResolverGrace.StaleSampleRun` | internal/bundles/bundles.go:755-783 | for every Grace, a run that deletes a loser at the very instant of a Reset, on a date sampled before it |
| `LoserResolverTheorems.DropBeforeDeletion` | internal/bundles/bundles.go:221-230 | a Reset or forget in that gap, from any state, and the deletion goes ahead with nothing on record |
| `LoserResolverTheorems.DeletionForgets` | internal/bundles/bundles.go:643-666 | after the deletion, whatever others do, the call's one step left drops the record of the loser it deleted |
| `LoserResolverTheorems.VerdictsFirst` | internal/bundles/bundles.go:632-657 | the winner and an unclaimed root are refused with nothing changed, a claimed root no longer listed is forgotten, and a loser waits for its date plus Grace |
| `LoserResolverTheorems.OneLoopPerLoser` | internal/bundles/bundles.go:716-750 | when Reset follows joined loops: at most one loop per loser, claims and loops match, at most six attempts |
| `LoserResolverTheorems.OneLoopInEveryRun` | internal/bundles/bundles.go:716-750 | in every run from the start that joins loops before a Reset: one loop per loser, at most six attempts |
| `LoserResolverTheorems.ResetOverLiveLoop` | internal/bundles/bundles.go:221-230 | a Reset over a live loop lets a second one start for the same loser |
| `DatasetCatalog.Chunker.TrackRetired` | internal/index/schema.go:218-245 | for every sequence of catalogs: known is every name ever seen, retired is that minus the current names |
| `DatasetCatalog.Chunker.EvictDatasets` | internal/index/schema.go:262-283 | evicted are exactly the names of an entry that is not read or has no attached owner, and the names seen before and gone; the catalog is handed over |
| `DatasetCatalog.Chunker.EvictText` | internal/index/schema.go:247-260 | exactly the names of an entry that is read, has an attached owner and no text documents |
| `DatasetCatalog.Chunker.Stream` | internal/index/module.go:163-191 | the handed-over catalog is consumed once; streamed are exactly the names of an entry that is read and has an attached owner, of a live object |
| `DatasetCatalog.Chunker.Page` | internal/index/schema.go:221-353 | a paired evict and stream, for any catalog: what is evicted, what loses its text and what is streamed, read off the entries and their owners; together every name ever seen, and disjoint if and only if entries of one name agree on being held; text evictions inside the streamed set if and only if every link-only dataset held by the second reading of the catalog was held by the first |
| `DatasetCatalog.Chunker.PageAcrossChange` | internal/index/schema.go:247-260 | a link-only dataset of an attached type added between the two readings loses text on a page that does not stream it |
| `DatasetCatalog.SchemaPage` | internal/index/schema.go:113-187 | from the datasets a space lists to a schema page: what is streamed, what loses its text and what is evicted, by owner, module, reserved names, search mapping and link fields |
| `DatasetCatalog.ModulePage` | internal/index/module.go:90-191 | the same for a module: by the owners of the last listing of a name |
| `DatasetCatalog.ActiveOrNot` | internal/index/module.go:132-161 | held and not held make up the catalog's names, and divide them when entries that share a name agree |
| `DatasetCatalog.ApartIff` | internal/index/module.go:132-191 | held and not held names are disjoint exactly when entries that share a name agree; `Page` states it of what is evicted and streamed |
| `DatasetCatalog.SchemaCatalogNames` | internal/index/schema.go:113-187 | a resolved catalog has one entry for each runtime dataset listed and no other |
| `DatasetCatalog.ModuleCatalogAgrees` | internal/index/module.go:90-102 | a module catalog keeps one owner list per name, so its entries agree whatever the space lists |
| `DatasetCatalog.UnionMeans` | internal/index/schema.go:218-245 | `known` means: in some catalog of the sequence |

## Left out

- CatalogValidate.Validate: covers ids, duplicates, requires, supersedes, handles, cycles and relation targets; names, part and property limits, meta, miniapp, rootType, layout, defaultType and the hand-set superseded flag are single-branch field checks and are not modelled.
- CatalogValidate.Validator.CheckUsecase: the same checks for one usecase, and the same ones left out.
- Problem messages and paths: a problem is its code and the ids it names.
- YAML and JSON decoding, unknown-key reporting and reflection.
- ChatHandler.ValidateCreatePayload: the string and boolean rules of the nested groups are a table of bounds; error texts are not modelled.
- Chat reading state, notifications and the storage engine itself.
- WindowEntries.LinksConserved: takes the card rule for a whole-line link and the JSON of a synced-block envelope as given functions of the text.
- EmbeddedProtocol: option checks, configuration and the engine's boot are oracle steps; a run's return and the closing of its done channel are one step.
- LoserResolver: registry reads, quiescence and deletion are oracle answers; the backoff delays of a retry loop and what its attempts return are free choices of the run.
- DatasetCatalog: the schema and the module chunker share one class, since their tracking code is the same; records, entries and the object row are not modelled, only which datasets are evicted and streamed.
- DatasetCatalog.Chunker.EvictDatasets: what is evicted and streamed is stated as names, not in which order, since each is deleted or read on its own.
- Sse: transport, HTTP status handling and typed frame views.
- SearchBudget: characters are taken as decoded; how invalid bytes decode is not modelled.
- Bundle install, adoption and uninstall: orderings of storage calls whose semantics are not part of this repository.
- The command-line tool, HTTP handlers, configuration layers, the indexer worker and site rendering.
- Block positions (lexids): minted by a library that is not part of this repository.
