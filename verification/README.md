# Verified model of visp-coder's hard core

visp-coder coordinates coding agents on one worktree. This project models the parts of it where a mistake
costs data or trust, and proves what each of them is for:

- **The state lock** (`StateLock`, `StateScopes`). Across processes: any number of contenders, reclaimers and
  crashes over a lock directory, `owner.json` and a recovery directory, as a system of interleaved steps. Inside
  a process: a tree of re-entrant scopes over promise chains. Every theorem is about every reachable state.
- **The journaled file transaction** (`FilePlan`, `FileTransaction`). A class `Project` holds the files and the
  journals; a list of faults says which writes fail or end the process, and a list of edits says what others do
  to the files meanwhile. The methods are the source's, crash points included.
- **The JSONC span editor** (`JsonString`, `JsoncSyntax`, `JsoncReader`, `JsoncLayout`, `JsoncTree`,
  `JsoncChange`, `JsoncEdit`, `JsoncEditor`). A lossless grammar, a cursor class that reads spans, and the two
  edits: once as changes of the tree, once as spliced spans of the text, proved to agree.
- **The incremental graph index** (`Ordering`, `GraphFacts`, `Projection`, `Regions`, `Merge`, `Refresh`).
  Fixed points over any import graph, shortest walks, merging of old and new facts, and one whole run.
- **JUnit reports** (`XmlText`, `Xml`, `XmlRoundTrip`, `JUnitReport`), **Windows command lines**
  (`WindowsCommand`), **bounded output** (`BoundedOutput`), **Claude Code settings** (`ClaudeSettings` for their
  values, `SettingsText` for their text) and **globs** (`Patterns`).

Some of what the source promises turns out to hold only under a condition. These are the cases, each with the exact
condition unless the line says otherwise:

- The `rename` fallback for file systems without hard links lets two live owners in
  (`StateLock.RenameFallbackAdmitsTwoOwners`); with hard links the same stall ends with one.
- Edges are kept under two paths joined by a space. No edge is lost if and only if no two drawn edges have the same
  joined text (`Projection.KeyedExactly`, `Projection.CollapseToFileGraph`); with spaces in paths two can
  (`Projection.SpacesLoseEdges`). For gap records the same holds of their three joined fields
  (`Merge.DedupeUnknowns`, `Merge.UnknownKeysClash`).
- An entity's id gives its file back if and only if its name holds no `#` (`GraphFacts.PathOfEntity`,
  `GraphFacts.PrivateNameMovesPath`).
- Setting a JSONC member and removing it again restores the text if and only if just the last key of the path was new
  and the object it went into satisfies `CanUndo`, which looks at the object before (`JsoncEdit.UndoRestores`); the space in
  `{ }` is lost, and an object made on the way stays (`JsoncEdit.SpaceInBracesIsLost`, `JsoncEdit.CreatedObjectStays`).
- A batch file's arguments arrive unchanged, none of them read as shell syntax, if and only if no argument holds a line
  break and the file's path holds no line break, which ends the line, and no tab or equals sign, before which no caret
  is put (`WindowsCommand.ArgumentsComeBack`, `WindowsCommand.EqualsEndsTheName`).
- An element tree is read back if and only if at most 64 elements nest and no attribute is called `__proto__`
  (`XmlRoundTrip.ElementRoundTrip`, `XmlRoundTrip.TooDeepIsLost`, `XmlRoundTrip.PrototypeIsLost`).
- Uninstalling after registering restores the settings if and only if no container it touches was there but empty
  (`ClaudeSettings.UninstallRestores`, `ClaudeSettings.EmptyHooksAreLost`).
- `**` inside a longer name swallows the slash after it (`Patterns.StarsInNameAbsorbSlash`), and a class like `[!b]`
  takes a slash (`Patterns.ClassTakesSlash`). That `**` is only used as a segment of its own, and every bracket group
  ends in its segment and takes no slash, is a sufficient condition for the usual meaning (`Patterns.PatternMeans`), not
  a necessary one.
- Hooks edited in a settings file read back as the wanted ones if and only if these name no event the file lacks
  (`SettingsText.ReadsBack`); removal never adds one.

`dafny verify dfyconfig.toml` checks everything. Methods that change an object's state say in `ensures` what its new state
is; where a method is proved equal to a specification function (`SetText`, `Parse`, `Shown`, ...), the lemmas
beside it say what that function guarantees.

## Model

| member | source | states |
|---|---|---|
| `StateLock.MutualExclusion` | src/core/state-lock.ts:232-289 | In every state of every run with hard links, two live contenders that both believe they own the worktree are one and the same, and `owner.json` names it, however often the directory was reaped and remade. |
| `StateLock.OwnershipEndsOnlyByReleaseOrDeath` | src/core/state-lock.ts:334-359 | A step after which `owner.json` no longer names a contender is that contender's own release, or happens once the contender is over. |
| `StateLock.OnlyOwnerlessDirectoriesAreReaped` | src/core/state-lock.ts:393-414 | A fact of the model's `rmdir`, which removes only an empty directory: whenever the lock directory goes away or is another one after a step, it held neither an owner nor a temporary file before it. |
| `StateLock.RecoveryIsExclusive` | src/core/state-lock.ts:362-375 | Two live reclaimers inside the recovery mutex are the same one. |
| `StateLock.RunKeepsInv` | src/core/state-lock.ts:175-217 | The invariant behind these theorems holds in every state of every run: a contender's belief is backed by the inode it linked or by the mutex it holds. |
| `StateLock.OwnerlessCanBeReaped` | src/core/state-lock.ts:393-455 | From any state whose directory has no owner, whatever leftovers it holds, an idle contender can clear it once nobody alive holds the recovery mutex, even while the contender that made it lives; so the safety results are not vacuous. |
| `StateLock.AbandonedCanBeRemoved` | src/core/state-lock.ts:334-359 | From any state whose owner an idle contender judges abandoned it can remove `owner.json`, and with nothing else in it the directory. |
| `StateLock.AbandonedCanBeTaken` | src/core/state-lock.ts:175-217 | From any state in which the lock is free, ownerless or held by an abandoned owner, and nobody alive holds the recovery mutex, an idle contender can come to hold the lock: no crash, wherever it happened, blocks it for good. |
| `StateLock.StalledContenderRetries` | src/core/state-lock.ts:254-289 | There is a run in which a stalled contender's directory is reaped and taken by another, its late publish fails, and it has forgotten its token and is back to waiting while the other owns. |
| `StateLock.RenameFallbackAdmitsTwoOwners` | src/core/state-lock.ts:264-278 | Without hard links the same stall reaches a state with two live owners. |
| `StateScopes.SiblingsSerialize` | src/core/state-lock.ts:106-133 | In every reachable state a child of a scope has left waiting only if every child queued before it is done. |
| `StateScopes.UnfinishedMeansLeaseActive` | src/core/state-lock.ts:83-104 | A scope that is not done belongs to a lease that is still active. |
| `StateScopes.EndedLeaseStaysEnded` | src/core/state-lock.ts:83-104 | A lease that has ended never becomes active again in the rest of the run. |
| `StateScopes.EndedLeaseIsQuiet` | src/core/state-lock.ts:83-156 | From the moment a lease has ended, every scope ever counted to it is done, in every later state, for any tree of awaited and forgotten calls. |
| `StateScopes.ClosedMeansDescendantsDone` | src/core/state-lock.ts:135-156 | When a scope has closed, everything nested in it at any depth is done. |
| `StateScopes.OpenScopeHasActiveLease` | src/core/state-lock.ts:62-65 | Wherever a nested call finds an open scope above it, that scope's lease is active, so the call queues and never falls through. |
| `StateScopes.WaitingNeverDeadlocks` | src/core/state-lock.ts:106-156 | For an unfinished call there is always itself, an earlier sibling or something inside one of them that can take a step. |
| `StateScopes.NoDeadlock` | src/core/state-lock.ts:83-156 | In every reachable state with an active lease some call can take a step. |
| `StateScopes.RunKeepsInv` | src/core/state-lock.ts:49-156 | The scope tree's invariant (queues in order, parents open above open scopes, leases active above unfinished scopes) holds along every run. |
| `FilePlan.PlannedIsWellFormed` | src/core/file-transaction.ts:309-357 | A plan made of a file tree is well formed, its pre-images are what the tree holds, and rewinding it at once changes nothing. |
| `FilePlan.MatchesAreImages` | src/core/file-transaction.ts:413-428 | The two comparisons succeed exactly when the target is the entry's pre-image, or its post-image. |
| `FilePlan.ClassifiedExactly` | src/core/file-transaction.ts:534-557 | Recovery calls a target restored exactly when it is the pre-image, and can place it exactly when it holds the content of one of the two images. |
| `FilePlan.OwnerOfTarget` | src/core/file-transaction.ts:309-357 | In a well-formed plan each target belongs to exactly the entry that changes it. |
| `FilePlan.RewoundIgnoresTargets` | src/core/file-transaction.ts:559-565 | What a rewind leaves depends only on the files that are no targets. |
| `FileTransaction.ObserveAssertions` | src/core/file-transaction.ts:832-855 | Reading assertions in bounded batches gives every result in input order, or the first failing item's error. |
| `FileTransaction.Project.RestoreEntry` | src/core/file-transaction.ts:559-565 | An applied target is put back to its pre-image, with one logged change over exactly what was there; a fault leaves files and log alone. |
| `FileTransaction.Project.RestoreJournal` | src/core/file-transaction.ts:511-532 | When any target is in a third state nothing at all is written; otherwise success means the fully rewound tree, and stopping anywhere leaves a tree that still rewinds to it. Every write is over the transaction's own before or after content. |
| `FileTransaction.Project.Recover` | src/core/file-transaction.ts:249-268 | Journals of transactions this process works on are passed over; of the others, success leaves none and the settled tree, and stopping anywhere leaves a state that settles to the same tree. Without faults any number of journals is recovered if and only if each prepared one's targets can be placed in turn. A blocked journal leaves everything untouched, and so does having nothing to recover. Every write puts a target of a prepared journal back, over one of its two contents. |
| `FileTransaction.Project.RecoverOne` | src/core/file-transaction.ts:256-265 | One journal: rolled back if it is prepared, then removed; stopped anywhere it can be taken up again, and without faults it fails exactly on a target it cannot place. |
| `FileTransaction.Project.ApplyStep` | src/core/file-transaction.ts:374-411 | A step that reports success left its target at the post-image; it writes only over the pre-image; without interference it changes just that target or, on any failure, nothing. |
| `FileTransaction.Project.HandleApplyFailure` | src/core/file-transaction.ts:455-480 | A normal error is rolled back at once: without faults the journal is gone, the tree is rewound and the error is the caller's, unless a target is in a third state, which stops the rollback before its first write with an error of its own. The journal is removed only once the tree is fully rewound. With `leavePreparedOnError` nothing is touched. |
| `FileTransaction.Project.Apply` | src/core/file-transaction.ts:196-242 | No transaction starts over one that cannot be recovered; from the recorded journal on, what recovery would leave is the tree before until the committed record and the planned tree after it. `committed` holds if and only if the committed record was written since the start, and at that write every target verified. Without faults the transaction is over on return: carried out or rolled back, but for a target that others left in a third state. Success means every target at its post-image whatever others did; every write is over the transaction's own contents; a fitting plan without faults succeeds. |
| `FileTransaction.Project.Begin` | src/core/file-transaction.ts:196-221 | The same from the point where recovery has left no journal, the committed record and the immediate rollback included; planning failures change nothing. |
| `FileTransaction.Project.ApplyRecorded` | src/core/file-transaction.ts:206-242 | The same from the prepared journal on, with the completed tree as the result of success. |
| `FileTransaction.Project.ApplyPrepared` | src/core/file-transaction.ts:359-372 | The steps run in order; wherever they stop, exactly the prefix reached has been carried out. |
| `FileTransaction.Project.PrepareJournal` | src/core/file-transaction.ts:287-307 | The plan records, mutation by mutation, what each target holds now, or fails with the first error in input order. |
| `FileTransaction.Project.VerifyApplied` | src/core/file-transaction.ts:430-453 | Success means every entry verifies; failure reports the first entry that does not. |
| `FileTransaction.Project.Commit` | src/core/file-transaction.ts:222-241 | `committed` tells exactly whether the committed record was written, which happens only over targets that all verify; a failure after it leaves exactly the committed journal, and one before it is rolled back at once. |
| `FileTransaction.Project.Restart` | src/core/file-transaction.ts:249-268 | Any number of later recoveries, each failing or dying anywhere, keep the settled tree, write only over the journals' own contents and never write a journal; one without faults leaves no journal. |
| `FileTransaction.Project.Lifetime` | src/core/file-transaction.ts:196-268 | For every crash point in an apply and in any number of recoveries after it, over any recoverable journals: once no journal is left the files are all as planned if the committed record was written at some moment of the whole life, and all as before if it was not. |
| `FileTransaction.CompletedRewinds` | src/core/file-transaction.ts:511-532 | After any prefix of an undisturbed apply every target can be placed, and rewinding gives the tree it started from. |
| `FileTransaction.CompletedVerifies` | src/core/file-transaction.ts:430-453 | A completed plan passes its own verification. |
| `FileTransaction.VerifiedMeansCompleted` | src/core/file-transaction.ts:430-453 | A verified plan has every target at its post-image, whatever happened on the way. |
| `FileTransaction.FullyRewound` | src/core/file-transaction.ts:511-532 | Putting back all the applied targets gives the rewound tree. |
| `FileTransaction.PartlyRewound` | src/core/file-transaction.ts:511-532 | A rollback interrupted after any of its writes can be resumed: it still classifies and rewinds to the same tree. |
| `JsonString.DecodeQuote` | src/harness/jsonc-edit.ts:331-354 | Every key survives being written as a JSON string and read back. |
| `JsoncSyntax.ReadsPrintedDocument` | src/harness/jsonc-edit.ts:282-380 | Every well-formed document, comments and layout included, is read back from its text. |
| `JsoncSyntax.ReadDocumentIsPrinted` | src/harness/jsonc-edit.ts:282-380 | Every text that is read prints back to itself, character for character. |
| `JsoncSyntax.ReadIsPrinted` | src/harness/jsonc-edit.ts:302-380 | The same for a value at the start of a longer text: it is exactly the prefix that was consumed. |
| `JsoncReader.ParseJsonc` | src/harness/jsonc-edit.ts:282-291 | The cursor's spans are those of the document's tree, and it gives up exactly on texts that are no document. |
| `JsoncReader.Reader.SkipTrivia` | src/harness/jsonc-edit.ts:317-329 | Past exactly the white space and comments at the cursor; failure means a comment without an end. |
| `JsoncReader.Reader.StringToken` | src/harness/jsonc-edit.ts:371-379 | Past exactly the string at the cursor; failure means it has no end, and the cursor stays. |
| `JsoncReader.Reader.ReadAny` | src/harness/jsonc-edit.ts:302-315 | The node of the value after the cursor's trivia, placed at its offset in the text, or failure where the grammar has none. |
| `JsoncReader.Reader.ReadObject` | src/harness/jsonc-edit.ts:331-354 | An object's members with the spans of their keys, values and commas, or failure exactly where the grammar fails. |
| `JsoncReader.Reader.ReadPair` | src/harness/jsonc-edit.ts:338-350 | One key, colon and value at their places in the text; failure means the members from there are not readable. |
| `JsoncReader.Reader.ReadArray` | src/harness/jsonc-edit.ts:356-369 | Past exactly the array at the cursor, trailing comma allowed, or failure exactly where the grammar fails. |
| `JsoncLayout.IndentUnit` | src/harness/jsonc-edit.ts:223-237 | The first indentation step found in member order, an object's own members before what its values hold. |
| `JsoncLayout.FindEndOfLineTrivia` | src/harness/jsonc-edit.ts:240-250 | The scan's offset is where the blanks and same-line comments at it end. |
| `JsoncLayout.CutAtLineEnd` | src/harness/jsonc-edit.ts:240-257 | Trivia cut where its line ends is trivia on both sides, once a newline follows the first part. |
| `JsoncLayout.LineEndsWithin` | src/harness/jsonc-edit.ts:240-250 | The end of a line of trivia does not depend on the token after it. |
| `JsoncTree.FindMeans` | src/harness/jsonc-edit.ts:86-92 | A lookup answers absent exactly when no member has the key, and an index exactly when that member alone has it. |
| `JsoncTree.RenderedIsWellFormed` | src/harness/jsonc-edit.ts:203-206 | A rendered value is readable text that denotes that value, at any indentation and newline style. |
| `JsoncTree.PutPrints` | src/harness/jsonc-edit.ts:35-54 | Exchanging the object an edit lands in changes just that object's stretch of the document's text. |
| `JsoncTree.PutSets` | src/harness/jsonc-edit.ts:35-54 | Setting the rest of a path in that object sets the whole path in the whole tree. |
| `JsoncTree.PutRemoves` | src/harness/jsonc-edit.ts:61-80 | Removing in that object removes at the whole path in the whole tree. |
| `JsoncTree.StopsWhenClear` | src/harness/jsonc-edit.ts:38-53 | The descent finds where to edit exactly when no key on the way is doubled and no step is a non-object. |
| `JsoncChange.EditedWorks` | src/harness/jsonc-edit.ts:121-206 | Replacing, appending or filling leaves a well-formed object that has the value at the path and every other member as it was. |
| `JsoncChange.AppendedWorks` | src/harness/jsonc-edit.ts:133-154 | An append leaves every earlier member's text and order and adds the key with the value last. |
| `JsoncChange.WithoutWorks` | src/harness/jsonc-edit.ts:156-180 | A removal leaves every other member's text, in order, in a well-formed object. |
| `JsoncChange.UndoneExactly` | src/harness/jsonc-edit.ts:133-201 | A tidy removal of the member just added gives the same object, trivia included, if and only if `CanUndo`: with members, when it is on one line or its last member's line ends in the file's own newline; without, when its braces are empty or hold more than spaces after such a newline. |
| `JsoncEdit.SettingSucceeds` | src/harness/jsonc-edit.ts:35-54 | Setting answers if and only if the text parses, its root is an object, the path is not empty and its way is clear. |
| `JsoncEdit.SettingWorks` | src/harness/jsonc-edit.ts:35-54 | What setting returns parses again, to the same tree with the value at the path; every other member keeps its text and place, and so does what surrounds the root. |
| `JsoncEdit.RemovingSucceeds` | src/harness/jsonc-edit.ts:61-80 | Removing answers under exactly the same condition. |
| `JsoncEdit.RemovingWorks` | src/harness/jsonc-edit.ts:61-80 | What removing returns is the text itself when the member is not there, and else parses to the tree without it, the others in order. |
| `JsoncEdit.SetThenRemove` | src/harness/jsonc-edit.ts:35-80 | A removal after an addition is the text of the original tree with just the changed object exchanged. |
| `JsoncEdit.AdditionUndone` | src/harness/jsonc-edit.ts:133-201 | For an added member the text comes back if and only if the object `CanUndo`. |
| `JsoncEdit.UndoRestores` | src/harness/jsonc-edit.ts:35-201 | For every edit that succeeds, setting and then removing the same path gives back the original text, character for character, if and only if just the last key was new and the object it went into can undo the addition. |
| `JsoncEdit.SpaceInBracesIsLost` | src/harness/jsonc-edit.ts:182-201 | Of `{ }` the space is lost, whatever key is set and removed. |
| `JsoncEdit.CreatedObjectStays` | src/harness/jsonc-edit.ts:35-80 | After setting and removing a path of two keys in `{}` the object made on the way is still there. |
| `JsoncEditor.Ordered` | src/harness/jsonc-edit.ts:95-103 | Edits are sorted from the end of the text to its beginning, of two at one place the later listed first; rising edits come out reversed. |
| `JsoncEditor.Apply` | src/harness/jsonc-edit.ts:95-103 | Splicing from the back gives what splicing all edits at once would. |
| `JsoncEditor.Replace` | src/harness/jsonc-edit.ts:121-131 | The edit turns the document's text into the one whose object has the value replaced. |
| `JsoncEditor.Insert` | src/harness/jsonc-edit.ts:133-154 | The edits (a comma where one is missing, and the member) turn the text into that of the object with the member appended. |
| `JsoncEditor.InsertIntoEmpty` | src/harness/jsonc-edit.ts:182-201 | The edit turns the text into that of the object filled with its first member. |
| `JsoncEditor.Remove` | src/harness/jsonc-edit.ts:156-180 | The edits turn the text into that of the object without the member, the comma before a last member gone too. |
| `JsoncEditor.MemberNamed` | src/harness/jsonc-edit.ts:86-92 | Over spans, the same three answers as over the tree's keys. |
| `JsoncEditor.SetJsoncMember` | src/harness/jsonc-edit.ts:35-54 | The span editor returns exactly the text of the changed tree, or nothing exactly when the change has none. |
| `JsoncEditor.RemoveJsoncMember` | src/harness/jsonc-edit.ts:61-80 | The same for removal. |
| `GraphFacts.PathOfEntity` | src/graph/ids.ts:8-31 | An entity's id gives its path back if and only if its name has no `#`, whatever the path; a file's id always does. |
| `GraphFacts.PrivateNameMovesPath` | src/graph/ids.ts:8-31 | The id of a method `#b` of `a.ts` gives back another path. |
| `Projection.CollectFileEdges` | src/graph/projection.ts:132-178 | Each map holds exactly the recorded edges, each under its key: an edge is recorded if and only if some relation draws it and no later one draws another edge with its key. |
| `Projection.KeyedExactly` | src/graph/projection.ts:167-178 | A map that has every edge's key and one of the edges under each holds all of them if and only if no two share a key. |
| `Projection.SpacelessKeys` | src/graph/projection.ts:167-178 | Edges from files without a space in their paths never share a key. |
| `Projection.SpacesLoseEdges` | src/graph/projection.ts:167-178 | Of two imports, from `a b` to `c` and from `a` to `b c`, the file graph holds only the second. |
| `Projection.PropagateReexportedTests` | src/graph/projection.ts:180-192 | The test edges afterwards are the given ones and those of files tested through one re-export, one under each key, a credited one where there is any. |
| `Projection.CollapseToFileGraph` | src/graph/projection.ts:106-123 | The files and edges of the file graph, sorted. Dependency edges are exactly the recorded ones, and all those drawn if and only if no two share a key. Test edges are those recorded and those recorded re-exports credit, of those that share a key one, a credited one if there is any; they are all test edges if and only if no two share a key and no re-export hidden by another takes a credit along. |
| `Projection.RefreshDependencyMaps` | src/graph/projection.ts:233-249 | The three maps hold exactly the recorded importers and imports, and the re-exports. |
| `Projection.RefreshDependencySet` | src/graph/projection.ts:195-214 | Terminating on every graph, it lists in order and once each the least forward closure of the importers of the least re-export closure of the seeds, over the recorded edges. |
| `Projection.RefreshSetIsOne` | src/graph/projection.ts:195-249 | Relations and seeds, in whatever order, leave one possible answer. |
| `Projection.AddForwardBarrels` | src/graph/projection.ts:217-231 | The result is the least set that holds the files and, with a file, the re-exporting files it imports. |
| `Projection.ChainIsSelected` | src/graph/projection.ts:195-214 | A file that imports a seed directly or through a chain of re-exporting files, of any length, is in that set. |
| `Projection.BuildAdjacency` | src/graph/projection.ts:501-514 | Two files are neighbours exactly when an edge joins them in either direction. |
| `Projection.Expand` | src/graph/projection.ts:340-362 | One round keeps what is recorded and extends it to every file one hop further. |
| `Projection.WalkDistances` | src/graph/projection.ts:340-362 | A file is recorded if and only if a walk within the limit reaches it from a seed, with the length of a shortest one. |
| `Projection.WalkIsLonger` | src/graph/projection.ts:340-362 | No walk from a seed arrives in fewer steps than recorded. |
| `Projection.StructuralNeighbourhood` | src/graph/projection.ts:293-321 | The seeds split into present and absent, isolated ones are those without neighbours, neighbours are exactly the files an edge of the file graph joins in either direction (all that an import or test joins, when no edge hides another), the files kept carry shortest distances in order of distance and path, and no file left out is nearer than one kept. |
| `Projection.CutIsNearest` | src/graph/projection.ts:301-320 | Cutting a list sorted by distance drops nothing nearer than what it keeps, and nothing at all exactly within the limit. |
| `Regions.PositionsRise` | src/graph/projection.ts:463-473 | Rounded positions strictly increase when there are more regions than places. |
| `Regions.PositionsSpan` | src/graph/projection.ts:463-473 | They begin at the first region and end at the last. |
| `Regions.RepresentativeRegions` | src/graph/projection.ts:463-473 | Exactly the limit of distinct regions in order, from first to last, when there are more; all of them when there are not. |
| `Regions.DescribeFile` | src/graph/projection.ts:435-460 | The representative regions of what the seeds reach, then those of the rest of the exported surface in the room that is left; together as many as the limit allows. |
| `Merge.MergeFacts` | src/graph/merge.ts:23-57 | Exactly the relations with both ends are kept, and with the dropped ones, counted as invalidated, they are all relations with repetitions; of entities with one id the first stays; every gap, and one for each relation dropped from a live file, is reported under its key, none is made up, and none is lost if and only if no two gaps share a key. |
| `Merge.DanglingUnknowns` | src/graph/merge.ts:70-83 | The gaps are exactly those of relations that are not live in files that are. |
| `Merge.DedupeEntities` | src/graph/merge.ts:90-97 | Sorted, one entity for every id, the first that had it. |
| `Merge.DedupeUnknowns` | src/graph/merge.ts:99-105 | Sorted; of the records with one key exactly the last is kept; no record is lost if and only if no two share a key. |
| `Merge.UnknownKeysDiffer` | src/graph/merge.ts:99-105 | Records with one key are equal when their paths have no space. |
| `Merge.UnknownKeysClash` | src/graph/merge.ts:99-105 | Of two records, for `a b` and for `a`, whose joined fields agree, only the second is kept. |
| `Refresh.DiffFiles` | src/graph/refresh.ts:47-71 | The four lists are exactly the same, changed, added and deleted files, each in order. |
| `Refresh.ParseSet` | src/graph/refresh.ts:238-262 | Exactly the touched files and, when files were added, those whose imports may now resolve; each once, in order. |
| `Refresh.PlanRun` | src/graph/refresh.ts:105-158 | Nothing to do if and only if there is a baseline of the same extraction and worktree fingerprints and no file was added, changed or deleted; otherwise what is parsed again is exactly the refresh set of the seeds (of all files when extraction changed) and what is carried over exactly the unmoved files outside it. |
| `Refresh.PlanIsOne` | src/graph/refresh.ts:105-158 | Files, baseline and fingerprints leave one possible plan. |
| `Refresh.PlanIsSound` | src/graph/refresh.ts:120-158 | Every plan parses or carries over each current file, never both; a file carried over is as it was, and no chain of recorded imports, direct or through re-exports, leads from it to an added, changed or deleted file. |
| `Refresh.DrawnChainsAreSound` | src/graph/refresh.ts:120-158 | When no two imports share a key the same holds of every chain the relations draw. |
| `Refresh.WithStore` | src/graph/refresh.ts:105-182 | A run publishes nothing if and only if nothing changed. Otherwise it parses the planned files that exist, carries over the planned ones, and publishes of these facts exactly the first entity of each id, the relations with both ends and the gaps, whatever extraction returns. A published gap is one of a current file or one extraction itself reports, as it does for skipped files; when extraction keeps to the files it is asked for, every published entity and relation is of a current file. |
| `Refresh.CarriedFacts` | src/graph/refresh.ts:144-172 | A published entity or relation that was not parsed now is the snapshot's own, of an unmoved file that is not parsed again. |
| `XmlText.DecodesEncoded` | src/core/junit.ts:175-187 | Encoded text decodes to itself, whatever follows. |
| `Xml.Attributes` | src/core/junit.ts:162-173 | The consuming loop reads exactly the attribute list, or fails exactly on a malformed or doubled attribute. |
| `Xml.FindTagEnd` | src/core/junit.ts:129-139 | The tag ends at the first closing bracket outside quotes. |
| `Xml.NodeSays` | src/core/junit.ts:141-173 | A tag opens an element if and only if a name begins it and its attributes can be read; the element has the longest such name, no two attributes of one name, and no children. |
| `Xml.ParseXml` | src/core/junit.ts:74-97 | The cursor and stack read exactly what the document grammar gives, and fail exactly where it fails. |
| `Xml.OpenNode` | src/core/junit.ts:90-108 | Fails if and only if the tag opens nothing, a second root would begin or a 65th element would be open; otherwise the element becomes the innermost open one or, closing itself, the last child of that. |
| `Xml.CloseNode` | src/core/junit.ts:99-103 | Fails if and only if nothing is open or the innermost element has another name; otherwise that element becomes the last child of the next open one, or the root. |
| `XmlRoundTrip.ReadsAttributes` | src/core/junit.ts:162-173 | A printed list of distinctly named attributes is read back in order, but for what a plain object cannot hold. |
| `XmlRoundTrip.ReadsTag` | src/core/junit.ts:141-149 | A printed tag is read back, self-closing or not. |
| `XmlRoundTrip.ScansNode` | src/core/junit.ts:74-127 | Scanning a printed node attaches its element and goes on after it when its depth has room below the limit, and fails when not. |
| `XmlRoundTrip.ParsesPrinted` | src/core/junit.ts:74-127 | Parsing a printed document, comments and text included, gives its elements when at most 64 are open at once and fails otherwise. |
| `XmlRoundTrip.ElementRoundTrip` | src/core/junit.ts:74-187 | An element tree with proper names comes back from its printed form if and only if it is at most 64 deep and no attribute is `__proto__`. |
| `XmlRoundTrip.TooDeepIsLost` | src/core/junit.ts:74-127 | A chain with 65 open elements is not read back, one with 64 is. |
| `XmlRoundTrip.PrototypeIsLost` | src/core/junit.ts:162-173 | An element with an attribute `__proto__` is not read back. |
| `JUnitReport.VerifyCounters` | src/core/junit.ts:61-72 | Accepts a suite if and only if every counter it declares is a decimal number equal to the count. |
| `JUnitReport.CollectCases` | src/core/junit.ts:41-59 | Succeeds if and only if every suite of the subtree declares the totals of its own subtree; then counts and lists all cases in order. |
| `JUnitReport.OutcomeOf` | src/core/junit.ts:17-26 | Failed if and only if there is a failure or an error, skipped if and only if there is only a skip. |
| `JUnitReport.PytestJUnit` | src/core/junit.ts:8-37 | A report is given if and only if the text is short enough and parses, its root is a suite, every suite is honest and every case named; it has one test for each case in order, named after it and failed, skipped or passed as its children say, and exit code 1 if and only if a case is broken. |
| `WindowsCommand.EscapedIs` | src/core/windows-command.ts:59-63 | The two regular-expression replacements of backslashes amount to the recursive escaping that the proofs follow. |
| `WindowsCommand.TextReadsCaret` | src/core/windows-command.ts:53-63 | cmd.exe, which would open a quoted part at a quote, end the command at an operator and drop a caret, reads text with carets as the text itself if it is one line, and otherwise not at all. |
| `WindowsCommand.LineReadsCaret` | src/core/windows-command.ts:53-57 | Where a delimiter would end the command's name, a name with carets is read whole; one with a line break, tab or equals sign is cut short or not read. |
| `WindowsCommand.TakesEscaped` | src/core/windows-command.ts:59-63 | The C runtime's rules read an escaped argument inside its quotes as the argument, up to its closing quote. |
| `WindowsCommand.SplitsQuoted` | src/core/windows-command.ts:17-29 | Those rules split the quoted arguments into the arguments. |
| `WindowsCommand.OneLayer` | src/core/windows-command.ts:59-63 | One pass over doubly escaped arguments leaves the singly escaped ones, and over those the quoted text; nothing, if an argument holds a line break. |
| `WindowsCommand.ArgumentsComeBack` | src/core/windows-command.ts:17-29 | For every file and argument list: cmd.exe, given the line, starts exactly that file with a text that splits into exactly the arguments (for a shim after one pass more), no character acting as syntax, if and only if the file's path can be told to it and no argument holds a line break. |
| `WindowsCommand.PreparedKeepsArguments` | src/core/windows-command.ts:11-30 | What is handed to the process has the arguments as they are, or is a quoted line for the command interpreter that passes them under exactly that condition. |
| `WindowsCommand.EqualsEndsTheName` | src/core/windows-command.ts:53-57 | A batch file with an equals sign in its path cannot be started: no caret is put before it. |
| `BoundedOutput.ShownIsWhole` | src/core/exec.ts:156-195 | What is shown is the whole stream up to two halves; beyond it, exactly its first and last half with the marker between. |
| `BoundedOutput.Output.constructor` | src/core/exec.ts:156-163 | A new buffer has seen nothing. |
| `BoundedOutput.Output.Add` | src/core/exec.ts:164-186 | After a chunk of any size the buffer is valid for the stream with the chunk at its end: its head is the first half, its tail the last half of the rest. |
| `BoundedOutput.Output.Text` | src/core/exec.ts:188-194 | The text is what `Shown` makes of the whole stream. |
| `BoundedOutput.Capture` | src/core/exec.ts:156-195 | After any chunks the text depends on nothing but their concatenation. |
| `BoundedOutput.HeadGrows` | src/core/exec.ts:166-175 | A chunk first fills the head; while it fits, the tail stays. |
| `BoundedOutput.TailGrows` | src/core/exec.ts:175-185 | What does not fit the head moves the tail to the end of the longer stream. |
| `ClaudeSettings.GeneratedReferences` | src/harness/claude-settings.ts:364-381 | Every entry recognised as generated names the script. |
| `ClaudeSettings.WithPromptHook` | src/harness/claude-settings.ts:106-116 | In both session events the loop takes out every entry that names the script and appends the generated one, other entries staying in order; the tool event's shell entries for the script likewise give way to one generated entry. |
| `ClaudeSettings.RegisteringTwice` | src/harness/claude-settings.ts:196-258 | Whatever registering wrote, registering again, forced or not, reports it current and writes nothing. |
| `ClaudeSettings.RegistrationKeeps` | src/harness/claude-settings.ts:196-258 | Whatever registering writes, forced or not, every other setting, every other event and every entry of the session events that does not name the script is as before, in order; so are such entries of the tool event if its list can be read, and none of a list that cannot. |
| `ClaudeSettings.WithoutEntries` | src/harness/claude-settings.ts:320-352 | The removal loop takes out exactly what it may and says whether a customised entry is left. |
| `ClaudeSettings.Undone` | src/harness/claude-settings.ts:330-345 | Generated entries added after a list without the script are exactly what a removal takes out of it. |
| `ClaudeSettings.UninstallRestores` | src/harness/claude-settings.ts:320-396 | For settings in which no entry names the script, registering and then removing both succeed, and give the same settings back if and only if there were no hooks, or the hooks were not empty and each list registering writes to was missing or had entries. |
| `ClaudeSettings.EmptyHooksAreLost` | src/harness/claude-settings.ts:320-396 | Settings whose hooks are empty come back without hooks. |
| `SettingsText.EditHooks` | src/harness/claude-settings.ts:412-426 | The loop over the file's events takes out those that are gone, sets those that differ and leaves the others, each edit on the text the last one left, until one fails; without hooks the whole member goes. |
| `SettingsText.EditsWork` | src/harness/claude-settings.ts:402-426 | On events the file has, each once, the span edits always succeed; the text reads back with every other setting and every other event as it was, and each listed event dropped, set to its new value or left. |
| `SettingsText.ReadsBack` | src/harness/claude-settings.ts:402-426 | Hooks edited from what the file says to what they shall be: the text reads back with all other settings and what is around them as they were, and with exactly the wanted hooks if and only if these name no event the file did not have. |
| `SettingsText.HooksGo` | src/harness/claude-settings.ts:412-417 | Taking the hooks out leaves a text that reads back without them and with every other setting as it was. |
| `Patterns.Compile` | src/core/patterns.ts:39-92 | The index loop yields the tokens of the whole pattern, bracket groups included, and its ending. |
| `Patterns.SplitJoins` | src/core/patterns.ts:25-70 | Every text is the join of its slash-free segments, so the segment semantics speaks about all texts. |
| `Patterns.GlobAccepted` | src/core/patterns.ts:39-92 | The compiled tokens accept a path if and only if the pattern's segments match the path's, `**` standing for any folders and a bracket group for its own text or a character of its class. |
| `Patterns.PatternMeans` | src/core/patterns.ts:8-92 | A pattern whose `**` are segments and whose bracket groups lie within segments and take no slash matches a path if and only if the recursive glob definition does. |
| `Patterns.StarsMatchNone` | src/core/patterns.ts:63-70 | `**` between two parts may stand for no folder: `dir/**/file` matches `dir/file`. |
| `Patterns.StarsInNameAbsorbSlash` | src/core/patterns.ts:63-70 | `a**/b` matches `ab`, which the recursive definition over segments does not: stars inside a name take the slash with them. |
| `Patterns.ClassTakesSlash` | src/core/patterns.ts:74-92 | `a[!b]c` matches `a/c`, which the recursive definition over segments does not. |
| `Patterns.OwnTextMatches` | src/core/patterns.ts:8-92 | Every pattern, whatever stars, question marks and bracket groups it holds, matches the path with its own text, so `app/[id]` matches the folder of that name; without stars, or with a slash at its end, also what is below. |
| `Patterns.LiteralMatches` | src/core/patterns.ts:25-61 | A literal pattern matches its own path and what is below it, and nothing else; one that ends in a slash what it is a prefix of. |

## Left out

- StateLock.MutualExclusion: stated for hard links only, because the rename fallback does not have it (`RenameFallbackAdmitsTwoOwners`). A process once judged dead stays dead, and a stale recovery directory is cleared only after its holder died; the source accepts a gap there (src/core/state-lock.ts:377-386).
- StateLock.RecoveryIsExclusive: rests on the same assumption about clearing the recovery directory.
- StateLock.AbandonedCanBeTaken: says the lock can be taken, not that a particular schedule takes it in time.
- StateLock: a confirmed recovery of an ambiguous owner (src/core/state-lock.ts:315-332) counts as the confirming caller knowing the owner to be dead. Waiting times, time-outs, the ages compared and transient Windows errors are arbitrary choices of the steps.
- StateScopes: work inside a scope is one step that may be taken at any time; the writers' queue before the lock and its time-out are not modelled.
- FileTransaction.Project.Apply: starts while no other transaction of its process is running, which the lock provides for; transactions nested in one another, malformed journal files, created parent directories, Windows modes, and races between the kernel's check and its write are not modelled. That the committed record tells supposes, with several journals left over, an id none of them has; the source draws a random one.
- FileTransaction.Project.Lifetime: the same, and without edits by others; with them `Apply`, `Recover` and `RestoreJournal` state what still holds.
- FilePlan: SHA-256 is an injective function of the content, and base64 is the identity.
- JsoncTree.RenderedIsWellFormed: `JSON.stringify` is modelled as printing a rendered tree, for values made of objects, arrays, strings, booleans, null and number texts.
- JsonString.DecodeQuote: a character is a Unicode scalar value, where the source's is a UTF-16 code unit; half a surrogate pair, escaped or not, has no model, and offsets count characters. Orders are those of code units all the same (`Ordering.Rank`).
- JsoncReader.ParseJsonc: for the same reason refuses keys with an unpaired surrogate escape, which `JSON.parse` accepts.
- Projection.PropagateReexportedTests: which of several credited edges with one key is the last is left open, as the maps here have no order.
- Projection.CollapseToFileGraph: external dependencies, the list of test files and `coverageFor` are left out.
- Projection.StructuralNeighbourhood: that edges hide no other is a sufficient condition for having all neighbours.
- Merge.MergeFacts: entrypoints, language coverage and external dependencies are left out.
- Refresh.WithStore: extraction is a parameter, any function of the files to parse; the repository walker gives each file once; the last pass over doubled relations (`dedupeRelations`), storing and the report are left out.
- Refresh.DrawnChainsAreSound: that no two imports share a key is a sufficient condition.
- Regions.DescribeFile: the order of regions inside a tier (by line and label) and the collection of candidates are left out.
- Xml.ParseXml: elements hold their children as values where the source fills a shared array; `__proto__` aside, the order of integer-like attribute names in a plain object is not modelled.
- XmlText.DecodesEncoded: numeric entities for surrogate code points are not modelled.
- WindowsCommand.ArgumentsComeBack: the expansion of variables between percent signs, which happens before carets count, delayed expansion, and the search for the file along PATH are not modelled; a parenthesis is an operator wherever it stands.
- BoundedOutput.Output.Text: bytes; decoding UTF-8 and the wording of the marker are left out.
- ClaudeSettings.UninstallRestores: settings as values; their text is `SettingsText`'s part. The wording of commands is abstract, a command names the script by a predicate. Null entries in a list, on which the source throws, and `planPreToolUseUnregistration` are not modelled.
- SettingsText.ReadsBack: for files that have hooks and no doubled event; the whole-file rewrite that replaces an edit which fails or does not read back (src/harness/claude-settings.ts:403-409) is left out. Two values that differ only in the order of their keys count as different.
- Patterns.Compile: escapes in classes, which cannot occur because backslashes have become slashes before, and the cache of compiled expressions are left out.
- Patterns.PatternMeans: for patterns in which `**` is a segment and groups lie within segments and take no slash; `StarsInNameAbsorbSlash` and `ClassTakesSlash` show what happens elsewhere.
- Patterns.GlobAccepted: for the same patterns.
- CLI commands, MCP tools, host instructions, configuration, benchmarks, redaction and subprocess control: wording, input and output, or thin wrappers.
