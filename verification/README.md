# Executor tooling, modelled and proved

This project models the tooling of the Executor repository whose behaviour is hardest to see by
reading it, and proves what that tooling promises. Each part of the model does what the code does;
where a promise of the documentation fails, the failing case is proved and so is the exact condition
under which the promise holds.

- **Port blocks** (`e2e/src/ports.ts`). Every checkout hashes its root to a preferred block of ten
  ports, walks cyclically over 400 blocks, takes a block by binding its lock port, bind-probes the
  ports it wants, publishes them through the environment and boots. `PortProtocol` is the step system:
  any number of processes, each with any number of `claimPorts` calls in flight, over one table of
  bound endpoints that other programs change at any step; a step is what runs between two awaits.
  `PortSafety` and `PortProgress` hold the theorems about whole runs. `PortClaims` is one process's code as a class,
  with its loops, on a table nothing else changes; `PortWalk` and `PortBoot` say what the walk finds
  and what the retry loop does. `FnvHash` is the hash, written with JavaScript's signed operators.
- **Schema codemod** (`scripts/migrate-schema-class.ts`). `TextEdits` proves that splicing edits in
  from the right is simultaneous substitution. `SchemaCodemod` works on lossless syntax trees, whose
  leaves spell out the file: finding edits on the tree and splicing them into the text gives the text
  of the rewritten tree. `SchemaReplacement` reads back what is written for one declaration.
  `SchemaPasses` adds imports, the text filters and the two passes.
- **Scenario extractor** (`e2e/src/scenario.ts`). The parenthesis scanner and the removal of other
  scenarios' blocks.
- **Video timeline** (`e2e/scripts/pr-media.ts`). `urlSegments` over the reals, against "the last
  navigation at or before time t".
- **Release versions and manifests** (`scripts/validate-release-ref.ts`, `scripts/publish-packages.ts`).
  The version pattern as a regular expression with its language, compared with Semantic Versioning
  2.0.0; the manifest rewrites, their undo and the publish channel.

Where code and documentation disagree, the model follows the code:

- The comment on `claimAndBoot` says a retry claims a fresh block. The first claim has published its
  ports, so every later claim of the call finds them pinned: `RetryTakesNoLock` (in every run) and
  `ReclaimReturnsTheSamePorts` show that a retry gets the same ports and no lock.
- A block's lock is said to be held for the suite's lifetime. Two targets of one process share it and
  the first release drops it (`SharedReleaseLetsPortsCollide`), and a retry is pinned to ports whose
  lock is gone (`RetryLetsPortsCollide`): in both runs two processes go by one port.
  `ProtectedExactlyWhenCareful` gives the exact condition on a run's releases and beginnings.
- The codemod promises to rewrite every `new X` of a migrated class. One inside the field expression of
  a declaration it also replaces is copied as it was, and the replacement may cut at the wrong place:
  `FullyRewrittenExactlyWhen` shows that the promise is kept exactly when there is no such call,
  `FoundEditsDisjointExactlyWhen` when edits overlap, and `CutFallsRightExactlyWhen` where the cut falls.
- The codemod goes by names: another class that bears the name of a migrated one, of the file itself or
  of a package, has its `new` rewritten too (`NamesakeIsRewritten`).
  `RightExactlyWhenNamesakesAreMigrated` is the exact condition on names, and
  `WrittenAsMeantExactlyWhen` the exact condition on the text of a file.
- The video timeline clamps navigations before the recording to its start, where list order decides:
  early entries out of order mislead (`EarlyDisorderMisleads`, `PreparedFollowsTheClock`).
- The version pattern turns away valid pre-release identifiers such as `1a`;
  `RejectedVersionsAreMixed` names all of them.

## Model

| member | source | states |
|---|---|---|
| FnvHash.Hash | e2e/src/ports.ts:24-31 | on every text of code units, the loop of signed xor, `Math.imul` and `>>> 0` is the unsigned modulo-2^32 FNV-1a recurrence |
| FnvHash.HashIsOctetFnv | e2e/src/ports.ts:22-31 | on octet texts (for ASCII: the UTF-8 encoding) the recurrence is octet FNV-1a, which only touches the low eight bits before multiplying |
| FnvHash.XorDigits | e2e/src/ports.ts:27 | binary digit k of the exclusive or is 1 exactly when digit k of the two operands differs |
| FnvHash.HashOfA | e2e/src/ports.ts:22-31 | the hash of "a" is the published 3826002220 |
| PortBlocks.WalkIsPermutation | e2e/src/ports.ts:166-168 | for every hash, attempts 0 to 399 visit every aligned block of 42000..45999 exactly once, the preferred one first |
| PortBlocks.PortsOfDistinctBlocksDiffer | e2e/src/ports.ts:47-50 | ports of different blocks never coincide, for all offsets inside a block |
| PortBlocks.PublishPins | e2e/src/ports.ts:197-202 | publishing pins exactly the published variables and leaves every other variable as it was |
| PortBlocks.PublishValue | e2e/src/ports.ts:197-202 | afterwards a variable holds the port of a claim on it in the block, or what it held |
| PortProtocol.StepKeepsAccounting | e2e/src/ports.ts:111-215 | every step keeps the exact accounting: our entries in the socket table are those some registry, local variable or probe still keeps open, and the other way round |
| PortProtocol.StepFrame | e2e/src/ports.ts:157-215 | a step changes no other call and no hash, and takes no lock from a registry but the one a release frees |
| PortSafety.RunKeepsInv | e2e/src/ports.ts:157-218 | the accounting and the consistency of every call hold in every state of every run |
| PortSafety.HeldBlocksAreLocked | e2e/src/ports.ts:139-179 | in every reachable state a held block's lock port is bound through that process's registry, so no block is held by two processes |
| PortSafety.ProtectedExactlyWhenCareful | e2e/src/ports.ts:157-215 | in a run, every call has all blocks it relies on locked by its process in every state, those it claims and those of its pinned ports, if and only if no release drops a lock another call of the process relies on and no call begins pinned to a port of a block its process does not hold |
| PortSafety.CarefulCallsNeverShareAPort | e2e/src/ports.ts:136-215 | in such a run two calls of different processes never go by the same port, claimed or pinned |
| PortSafety.SharedReleaseLetsPortsCollide | e2e/src/ports.ts:207-215 | a run in which a shared release lets two processes be live on the same port |
| PortSafety.RetryLetsPortsCollide | e2e/src/ports.ts:159-164 | a run in which a retry is pinned to the port of the block its process released, and another process is live on it |
| PortSafety.SquattedBlockStaysLocked | e2e/src/ports.ts:187-196 | a lock leaves the registry only through a release of a call that returned that block, so a block abandoned as squatted stays locked |
| PortSafety.ReturnedPortsWereAllHeldAtOnce | e2e/src/ports.ts:180-206 | whenever a call has returned new ports, the run holds one instant at which it had both wildcard listeners open on every one of them |
| PortSafety.NoProbeOutlivesItsStage | e2e/src/ports.ts:111-122 | on every path a call has no probe listener open once it moves on or returns |
| PortSafety.OnlyLocksRemain | e2e/src/ports.ts:185-215 | when the calls of one process rest, that process keeps bound exactly the lock ports of its registry, whatever the other processes do |
| PortSafety.WinnersArePublished | e2e/src/ports.ts:197-202 | in every run a call that has won its block has every one of its variables set in its process's environment |
| PortSafety.RetryTakesNoLock | e2e/src/ports.ts:157-164 | in every run, after one call of a process has won, a later call for the same variables returns at once as pinned, without lock or probe |
| PortProgress.WalksOnOnlyWhenTurnedAway | e2e/src/ports.ts:166-217 | in every run a call that throws for want of a block has been turned away from every one of the 400, by a refused lock or an answered or refused probe, and a call that walks or has won has been turned away from the block of exactly the earlier attempts |
| PortProgress.OnlyWinnersWriteTheirVariables | e2e/src/ports.ts:197-202 | a step changes a variable only by publishing the port, in a block just proven free, of a claim the call found unpinned |
| PortProgress.PinnedCallsReturnEveryVariable | e2e/src/ports.ts:158-164 | in every run a call that returns as pinned has read a port back for every one of its variables |
| PortClaims.Process.BindProbe | e2e/src/ports.ts:111-122 | leaves both wildcard listeners open exactly when the port is free, and otherwise the table as it was, also after a failed v6 bind |
| PortClaims.FreeExactlyWhen | e2e/src/ports.ts:80-122 | a port counts as free exactly when nothing listens on a loopback or wildcard address of either family, no wildcard is bound and, where wildcards exclude all others, no address at all |
| PortClaims.Process.ProbeAll | e2e/src/ports.ts:185-191 | succeeds exactly when all ports are free and distinct; closing what it opened restores the table |
| PortClaims.Process.LockBlock | e2e/src/ports.ts:171-179 | obtains the block exactly when it is held here already or its lock port can be bound, and records it |
| PortClaims.LockExactlyWhen | e2e/src/ports.ts:139-144 | a block's lock is to be had exactly when no other socket has its ninth port on 127.0.0.1, nor on the IPv4 wildcard where that excludes it |
| PortClaims.Process.PublishPorts | e2e/src/ports.ts:197-202 | writes each claim's port to the result and the environment in order |
| PortClaims.Process.ClaimPorts | e2e/src/ports.ts:157-218 | the whole new state and result are those of the walk specification, for every table, registry and environment |
| PortClaims.Process.DoRelease | e2e/src/ports.ts:209-214 | drops the block's lock if the registry has it, otherwise nothing |
| PortWalk.WalkFindsFirstGoodBlock | e2e/src/ports.ts:166-217 | the walk returns the first block, in walk order, whose lock is to be had and whose ports are free in the original table; fails exactly when there is none; and leaves nothing behind but the locks it took on the way |
| PortWalk.ClaimReturnsFreePorts | e2e/src/ports.ts:158-202 | every returned port of an unpinned variable is in the claimed block at the offset of a claim on it and was free; a pinned variable is read back |
| PortWalk.ClaimReturnsEveryVariable | e2e/src/ports.ts:157-206 | a claim returns a port for exactly the variables asked for |
| PortWalk.LockOffsetIsNeverClaimed | e2e/src/ports.ts:44-50 | after any claims and releases of a process and any changes by other programs, a claim on offset 9 fails, because the block's own lock answers its probe |
| PortWalk.ReclaimReturnsTheSamePorts | e2e/src/ports.ts:157-164 | after a successful claim, whatever happens to table and locks, the same claims return the same ports, change nothing and have nothing to release |
| PortBoot.IsAddrInUse | e2e/src/ports.ts:223-231 | true exactly when some error of the cause chain has the code or names it in its message |
| PortBoot.InUseThroughCauses | e2e/src/ports.ts:223-231 | an error counts exactly when it has the code, names it in its message, or wraps a cause that counts |
| PortBoot.ClaimAndBoot | e2e/src/ports.ts:247-281 | for every sequence of boot outcomes: boots exactly up to the first success, the first failure that is no address in use, or the last attempt, in the stated order of claims, boots and releases, with the stated result and final state; every boot gets the ports the first claim returns, and only the first boot runs with the claimed block locked |
| PortBoot.BootAndTearDown | e2e/src/ports.ts:247-281 | a call and its teardown: the caller's teardown comes after every boot and before the release; however the boots went, once it has thrown or the teardown has run, the ports are published, the blocks abandoned on the way are still locked and the claimed block is not, even if it was before; a teardown that throws leaves the block locked exactly when the first boot succeeded |
| PortBoot.ClaimAfterRelease | e2e/src/ports.ts:255-270 | every claim after a released first one returns the first one's ports and no lock |
| PortBoot.RetriesReuseThePorts | e2e/src/ports.ts:255-278 | for a claim in any state: every boot of the call gets that claim's ports, and if it took a block, the block is locked for the first boot and for no later one |
| PortBoot.ClaimedBlockIsLocked | e2e/src/ports.ts:207-215 | a newly claimed block is held on return, and its release unlocks it |
| Texts.IndexOf | e2e/src/scenario.ts:259 | the first occurrence at or after a position, or -1 when there is none |
| TextEdits.ApplyEdits | scripts/migrate-schema-class.ts:247-255 | the loop splices the stably descending list into the text |
| TextEdits.SplicingDisjointEditsSubstitutes | scripts/migrate-schema-class.ts:247-255 | for every text and every list, in any order, of non-empty, in-bounds, pairwise disjoint edits, the result is the left-to-right simultaneous substitution of the same edits, with the length that follows |
| TextEdits.NestedEditsMoveTheEnd | scripts/migrate-schema-class.ts:247-255 | for any edits nested in another, in any order: the outer edit cuts at its old end in the text the inner ones made; right if and only if they add nothing in total, or take away and nothing follows |
| SchemaCodemod.ConstructorEditsAscend | scripts/migrate-schema-class.ts:219-245 | constructor edits are in text order and disjoint on every tree, however `new` expressions nest |
| SchemaCodemod.FoundEditsDisjointExactlyWhen | scripts/migrate-schema-class.ts:307-314 | declaration and constructor edits together are disjoint if and only if no edit is found inside a rewritten declaration |
| SchemaCodemod.RewrittenDeclText | scripts/migrate-schema-class.ts:139-157 | the rewritten declaration's tree spells the built replacement around the unchanged field expression |
| SchemaReplacement.ReplacementSpelled | scripts/migrate-schema-class.ts:139-157 | what is written for a declaration of either kind, exported or not, annotated or not |
| SchemaReplacement.ReplacementDeterminesDeclaration | scripts/migrate-schema-class.ts:139-157 | declarations with equal replacements agree on name, export, kind, field text, and on the tag or the annotated identifier, for identifiers as names, string literals as quoted texts and field texts that close no parenthesis they did not open |
| SchemaReplacement.DeclarationIsReplaced | scripts/migrate-schema-class.ts:160-196 | a file that is one declaration is written back as the replacement around its field expression, and as it was if the class has members |
| SchemaCodemod.CodemodResult | scripts/migrate-schema-class.ts:247-314 | for every tree, overlapping edits included: the result is one pass over the tree in which a rewritten declaration cuts by the length its text had |
| SchemaCodemod.CodemodRewritesTheTree | scripts/migrate-schema-class.ts:291-314 | when no edit is found inside a rewritten declaration, applying the found edits to the text gives the text of the rewritten tree |
| SchemaCodemod.RewriteIsQuiet | scripts/migrate-schema-class.ts:160-245 | the rewritten tree has nothing left to migrate or rewrite, even under the same names |
| SchemaCodemod.RemainderByGrowth | scripts/migrate-schema-class.ts:307-314 | calls found inside a rewritten declaration that add g characters leave its last g characters behind it, or eat -g from the text that follows |
| SchemaCodemod.CutFallsRightExactlyWhen | scripts/migrate-schema-class.ts:307-314 | with calls found inside one rewritten declaration, anywhere in any file: the result is the text of the tree rewritten around the old field expression up to that declaration, then that remainder; the cut falls at the right place if and only if g is zero, or negative with nothing following |
| SchemaCodemod.FullyRewrittenExactlyWhen | scripts/migrate-schema-class.ts:3-5 | for every tree, however many declarations have finds in their field expressions: the result is the tree with every migrated declaration and every call rewritten, those in field expressions too, if and only if nothing is found inside a rewritten declaration |
| SchemaPasses.CollectImportAliases | scripts/migrate-schema-class.ts:200-214 | each local name maps to the original name of its last import |
| SchemaPasses.LaterImportWins | scripts/migrate-schema-class.ts:211 | one more import takes over its local name and leaves every other alone |
| SchemaPasses.CollectMigratedNames | scripts/migrate-schema-class.ts:268-277 | the names of the memberless matching classes of all files that pass the text filter |
| SchemaPasses.DeclNamesAreFound | scripts/migrate-schema-class.ts:160-196 | the names found are those of the memberless matching classes at any depth |
| SchemaPasses.RewriteFile | scripts/migrate-schema-class.ts:291-314 | the text written back, filters included |
| SchemaPasses.SchemaFileIsReplaced | scripts/migrate-schema-class.ts:268-314 | a file that is one memberless declaration of either kind passes the filter and is written back as the replacement |
| SchemaPasses.PlainSpellingIsSeen | scripts/migrate-schema-class.ts:270-299 | a file spelled as the text filters expect passes them whenever there is something to find in it |
| SchemaPasses.FileIsRewritten | scripts/migrate-schema-class.ts:291-314 | a handled file is written back as the text of its rewritten tree |
| SchemaPasses.SecondRunChangesNothing | scripts/migrate-schema-class.ts:268-316 | after a run over handled files a second run migrates no name and writes every file back unchanged |
| SchemaPasses.RightExactlyWhenNamesakesAreMigrated | scripts/migrate-schema-class.ts:200-245 | for files that fit together, with imports among them and from outside: wherever a name is bound, by an inner scope, an import, a top level or the environment, `new` on it is rewritten exactly when it denotes a migrated class, if and only if whatever bears the name of a migrated class is one |
| SchemaPasses.DeclaredOnceIsEnough | scripts/migrate-schema-class.ts:268-277 | that condition holds when migrated names are declared once, imported from no package and unshadowed |
| SchemaPasses.RewritesExactlyMigratedClasses | scripts/migrate-schema-class.ts:225-314 | where migrated names are declared once and unshadowed and no edit is found inside a rewritten declaration, a plainly spelled file is written back with exactly its migrated declarations and the `new` expressions whose callee denotes a migrated class, directly or through an alias, rewritten |
| SchemaPasses.WrittenAsMeantExactlyWhen | scripts/migrate-schema-class.ts:268-314 | where whatever bears the name of a migrated class is one, the text written back is the one meant by what names denote, if and only if nothing is found inside a rewritten declaration and the text filters let the file pass |
| SchemaPasses.NamesakeIsRewritten | scripts/migrate-schema-class.ts:227-240 | for every migrated class, another file with a class of its own or of a package of that name is written back with its `new` rewritten, which is not what is meant |
| ScenarioSource.FindClose | e2e/src/scenario.ts:260-271 | the parenthesis that first balances the opening one, or none when it never closes |
| ScenarioSource.ScanBlocks | e2e/src/scenario.ts:257-279 | terminates; each block reads from `scenario(` to the parenthesis that balances its own, with the semicolon behind it if there is one; the blocks are ordered, disjoint and shortest-balanced, and every occurrence of the needle lies wholly inside one; or it bails out at a needle that never closes |
| ScenarioSource.BlocksReadAsBlocks | e2e/src/scenario.ts:259-277 | what a block is, in counts of characters: from the needle over the shortest text in which as many parentheses close as open, past a semicolon that follows, mine exactly when it holds the quoted name |
| ScenarioSource.ScanIsUnique | e2e/src/scenario.ts:257-279 | these promises leave exactly one list of blocks |
| ScenarioSource.BailMeansNoScan | e2e/src/scenario.ts:272 | where the scanner bails out, no list of blocks satisfies the promises |
| ScenarioSource.DropOthers | e2e/src/scenario.ts:281-284 | cutting from the right leaves exactly the gaps and my blocks, in order |
| ScenarioSource.Extract | e2e/src/scenario.ts:253-289 | a text comes back exactly when the source scans and some block is mine, and then it is the source without the other blocks |
| UrlTimeline.LatestIsInForce | e2e/scripts/pr-media.ts:109-115 | the reference reading: the latest navigation at or before t, later entries winning ties, whenever there is one |
| UrlTimeline.SortKeepsLatest | e2e/scripts/pr-media.ts:115 | the stable sort changes what is in force at no time |
| UrlTimeline.UrlBeforeTheFirst | e2e/scripts/pr-media.ts:117-122 | before the first navigation the URL is its own if it comes within 0.25 of the start, otherwise the blank page |
| UrlTimeline.PreparedFollowsTheClock | e2e/scripts/pr-media.ts:109-115 | for every record, in any order: the shifted, clamped and filtered list shows at t seconds what the record has in force at that moment of the clock, if and only if an entry after the anchor is in force or the last early entry shows what was in force at the anchor |
| UrlTimeline.EarlyOrderIsEnough | e2e/scripts/pr-media.ts:109-115 | it does at every time when the entries at or before the anchor are in time order |
| UrlTimeline.EarlyDisorderMisleads | e2e/scripts/pr-media.ts:111 | two early entries out of order show the older one |
| UrlTimeline.CutSegments | e2e/scripts/pr-media.ts:120-128 | the loop over the navigations computes the raw segments |
| UrlTimeline.RawSegmentsTileAndLabel | e2e/scripts/pr-media.ts:117-128 | the raw segments tile the recording and each carries the URL a viewer should see throughout |
| UrlTimeline.MergeSegments | e2e/scripts/pr-media.ts:132-140 | the reduce computes the merged list |
| UrlTimeline.MergeMerges | e2e/scripts/pr-media.ts:132-140 | merging keeps order and disjointness, leaves no pair to join, covers every input with its URL and loses no length |
| UrlTimeline.FinalSegments | e2e/scripts/pr-media.ts:130-140 | the merged list is ordered, disjoint, fully merged and of segments longer than 0.01; every time of the recording is covered with the right URL or lies in a dropped sliver; at most 0.01 is uncovered per sliver |
| UrlTimeline.UrlSegments | e2e/scripts/pr-media.ts:103-141 | the same of the whole function, for every record, anchor and duration, with its two special cases |
| ReleaseVersion.PreIdMatches | scripts/validate-release-ref.ts:4-5 | the pre-release item takes exactly the identifiers of section 9 of Semantic Versioning 2.0.0 that do not start with a digit and hold a non-digit |
| ReleaseVersion.PatternAcceptsExactly | scripts/validate-release-ref.ts:4-12 | the pattern accepts a text if and only if it is a valid version (sections 2, 9 and 10) without such an identifier |
| ReleaseVersion.PrintIsInjective | scripts/validate-release-ref.ts:4-5 | the parts of a version are unique and print back to the text |
| ReleaseVersion.RejectedVersionsAreMixed | scripts/validate-release-ref.ts:4-12 | a valid version is turned away if and only if it has such an identifier |
| ReleaseVersion.MixedVersionIsRejected | scripts/validate-release-ref.ts:4-12 | 1.0.0-1a is valid and turned away |
| ReleaseVersion.TagsAreMarkedVersions | scripts/validate-release-ref.ts:14-20 | a tag is accepted exactly when it is `v` and an accepted version, and comes back as given |
| ReleaseVersion.ChannelOfVersion | scripts/publish-packages.ts:63 | the channel is beta if and only if there is a pre-release part or build metadata with a hyphen |
| PackageManifest.RenameDepBlock | scripts/publish-packages.ts:119-139 | computes the same block as the peer rewriter, though it reports changes differently |
| PackageManifest.RenamePeerDepBlock | scripts/publish-packages.ts:151-171 | computes the same block as the regular rewriter |
| PackageManifest.RenamePeerMetaBlock | scripts/publish-packages.ts:178-194 | keeps exactly the entries whose key is not an unpublished package of the scope |
| PackageManifest.RenamedEntries | scripts/publish-packages.ts:119-171 | exactly the unpublished packages of the scope go, every other entry stays with its resolved specifier |
| PackageManifest.RenamedKeys | scripts/publish-packages.ts:119-171 | exactly the keys that are published or of another scope stay, in the order they stood |
| PackageManifest.RenamedVersions | scripts/publish-packages.ts:124-162 | a published package on a workspace specifier gets exactly its version, every other kept entry stays as it was |
| PackageManifest.RenamedMetaKeys | scripts/publish-packages.ts:178-194 | peer metadata keeps the same keys, in the order they stood |
| PackageManifest.MetaStaysWithinPeers | scripts/publish-packages.ts:173-194 | peer metadata stays within the peers |
| PackageManifest.HoistFields | scripts/publish-packages.ts:249-258 | the loop computes the hoisted fields, the remaining ones and whether any was hoisted |
| PackageManifest.EntryPointsAreOverridable | scripts/publish-packages.ts:233-247 | which fields are overridable, and that access, tag and registry are not |
| PackageManifest.HoistedFields | scripts/publish-packages.ts:249-258 | every overridable field ends up at the top with its value and nothing else changes there |
| PackageManifest.UnhoistedFields | scripts/publish-packages.ts:249-258 | what is left in `publishConfig` are exactly the other fields, in the order they stood |
| PackageManifest.HoistingMovesExactly | scripts/publish-packages.ts:222-268 | every overridable field reaches the top with its value, every other field stays in `publishConfig`, which goes exactly when there were fields and all were overridable |
| PackageManifest.VersionsWellFormed | scripts/publish-packages.ts:196-201 | resolving keeps a manifest one JSON can yield: distinct keys in order, the field names listed |
| PackageManifest.HoistingWellFormed | scripts/publish-packages.ts:247-268 | so does hoisting, whose new fields go to the end of the order and which may delete `publishConfig` |
| PackageManifest.PreparedManifestIsClean | scripts/publish-packages.ts:112-274 | with concrete versions no block of a prepared manifest names an unpublished package of the scope or leaves a published one on a workspace specifier, and nothing is left to hoist |
| PackageManifest.PreparedIsFixed | scripts/publish-packages.ts:196-274 | the two rewrites commute and the prepared manifest is a fixed point of both |
| PackageManifest.PackageFile.ApplyWorkspaceVersions | scripts/publish-packages.ts:196-211 | writes the resolved manifest, and hands back the undo, exactly when its text differs |
| PackageManifest.PackageFile.ApplyPublishConfig | scripts/publish-packages.ts:222-274 | writes the hoisted manifest, and hands back the undo, exactly when a field is overridable |
| PackageManifest.PackageFile.PackBracket | scripts/publish-packages.ts:298-309 | packs the rewritten manifest and leaves the file as it was, whether packing succeeds or throws and whichever rewrites changed nothing, for every codec that reads well-formed manifests back as written |
| PackageManifest.PackageFile.Prepare | scripts/publish-packages.ts:347-359 | leaves the prepared manifest's text |
| PackageManifest.PreparingTwice | scripts/publish-packages.ts:347-359 | preparing twice is preparing once |
| PackageManifest.SwappedRestoreFailsExactlyWhenBothWrote | scripts/publish-packages.ts:306-309 | restoring in the other order puts the original back if and only if at most one rewrite wrote the file |

## Left out

- Real sockets, timers and the event loop: a table of bound endpoints stands for them; connect timeouts are not modelled, and the step system lets a connect probe answer either way and a bind be refused for any reason.
- Environment texts: seen only through whether they are empty and what `Number` makes of them; `String(port)` is taken to read back as the port.
- Process exit: a process that dies does not give back its locks in the step system.
- Concurrent probes: the class model runs the probes of a block one after the other; the step system interleaves them.
- `claimAndBoot` as steps: its loop is modelled in the class model with the boot outcomes given; the sockets the booted services bind are not in its table. Error chains are finite.
- The TypeScript parser, `parseSchemaClassExtends` and `getText`: trees are given with the matching class declarations, their fields and the `new` expressions on identifiers marked, and the rewritten text is taken to parse to the rewritten tree.
- Scopes: which names a function or block binds is given with the tree, and an import is taken to name the file that binds the original; default and namespace imports count as names the file binds itself.
- FullyRewrittenExactlyWhen: says nothing of a declaration whose only finds lie outside its field expression, such as in a decorator; `CodemodResult` still gives the text.
- The JSON text of a class identifier in a replacement: given with the declaration.
- File walking, dry runs, counters and console output of the scripts.
- Import stripping, newline collapsing and trimming in the scenario extractor, and reading its file.
- Rounding: times in the video timeline are reals.
- JSON text formatting: a reader and a writer that agree on well-formed manifests stand for it; a dependency block is absent or an object of texts, so the error on a specifier that is no text is not modelled, nor is the key `__proto__`.
- npm and bun subprocesses, registry lookups and tarball handling in the publisher.
- Everything else in the repository: it would only add members easier than these.
