# A verified model of the code-moniker daemon's protocols and algorithms

code-moniker extracts a symbol graph from source trees and serves it from a resident daemon. This
project models the parts of it whose correctness does not show from reading one function: two
concurrent protocols on the file system, the text front end of the query language, the budgeted
rendering of syntax trees with nested languages, and six algorithms that have to agree with a
simple meaning. Everything is in Dafny 4.11; `dafny verify dfyconfig.toml` checks it.

## The conditional file calls

`DirectoryTrace`, `World` and `ManagedFile` model `crates/cli/src/fs_nofollow.rs`. A directory is a
map from names to inodes, and every file-system call is one atomic step. Before each step a schedule
lets other processes create inodes and link or unlink any names, and may make the call fail. The
contracts hold for every schedule, hence for every interleaving. `polite` records that others
have left alone the temporary names this call created exclusively; the safety claims are made for
polite worlds. A history of all steps is kept, and what a call unlinked and how it changed the
target are proved to be what the history says.

- No inode of someone else is unlinked, unless it was read and is what the caller expected. Every
  other inode the call took from the target and did not give back is, at the end, behind a temporary
  name of the call's own: the backup is retained, whatever others do to the public name.
- A successful write is one atomic transition of the public name, from an entry that matches the
  expectation to the new contents. A failed one publishes at most the new contents and then only
  puts back what it displaced.
- When others are done by the time of the rollback and nothing fails, a file that took the target's
  place meanwhile is public again at the end, and the backup is retained: the rollback of the rollback
  gives it back. A removal that had displaced another file never leaves the target vacant.
- Undisturbed, writing is exactly compare-and-swap on the whole directory, temporaries included, and
  every step has an exact outcome for every directory it may find, down to a backup that is written
  anew because it is gone.
- Undisturbed, a failed remove leaves the directory as it was if and only if the target is absent or
  a regular file. The code moves a directory or a symbolic link aside and its rollback refuses to
  move it back, so it stays behind under the temporary name; `DirectoryStaysDisplaced` is a concrete
  case.

## The registry slot

`RegistrySlot` is a state machine over any number of processes, one file operation per step: claims
that link without the lock, heartbeats and removals under the lock, failures and crashes anywhere.
The slot's holder only changes from nobody to a claimant, or from the holder a removal names to
nobody, and a daemon whose token has left the slot can never touch it again. What each operation
achieves when it is not disturbed is stated as well: a claim takes a vacant slot, a heartbeat refreshes
exactly the owner's entry, a removal vacates exactly the slot it names, and a failing operation changes
nothing.

## The rest

`EditDistance`, `QueryText`, `QueryRequest`, `RequestContents` and `Paging` cover the query language. `SyntaxTree`,
`SyntaxRender`, `TextPosition` and `SourceOrigin` cover rendering. `Glob`, `LineIndex`,
`SourceGroups`, `ResolutionAudit` and `CacheEntry` are the workspace algorithms. `Results`,
`Decimal`, `Numbers`, `Whitespace`, `Ranking` and `Regexes` are shared.

Some promises that a reader of the documentation might expect do not hold of the code in general, and
are stated with their exact conditions:

- a quoted positional argument comes back iff it has no colon (`QuotedPositionalSurvives`);
- a printed cursor reads back iff it carries a generation (`CursorTextSurvives`);
- following pages ends with exactly the rows iff one page holds them all, or the limit is at least one
  and the cursor survives being sent back; otherwise a client that keeps cursors goes on forever and
  one that re-reads a bare offset is rejected (`FollowingEnds`, `FollowingCannotEnd`);
- a failed remove restores the directory iff the target was absent or a regular file
  (`RemoveIfUnchanged`);
- a region nested in one that was parsed behind a synthetic prefix gets its right origin iff no newline
  lies between the start of the outer region and the inner one (`PrefixedParentOrigin`,
  `PrefixHidesNewline`). The SQL front end in crates/core/src/lang/sql/body.rs never nests a region in
  such a one; only callers of the public constructors `with_nested` and `with_analysis` can;
- the order in which source roots are listed is irrelevant for a file iff the deepest roots that cover
  it agree on group and srcset (`DeclarationOrderIsIrrelevant`); within groups, iff those of the first
  such group agree on the srcset (`OrderWithinGroups`). A root declared through a link below another
  root breaks this (`LinkedRootsDependOnOrder`, which two roots of one group can realize);
- a path pattern behind a single slash means what it means without iff it does not begin with `./`
  (`SlashIsDropped`);
- a cache entry validates under its own key iff the path is shorter than 2^32 bytes (`StoredBytes`).

## Model

| member | source | states |
|---|---|---|
| `DirectoryTrace.NotLostStaysLinked` | crates/cli/src/fs_nofollow.rs:125-211 | over any interleaved history of create, exchange, rename and unlink steps, an inode linked at any moment and never unlinked by the call is linked at the end, unless another process took it |
| `World.AwaitedParked` | crates/cli/src/fs_nofollow.rs:125-211 | whatever polite others do between two steps, a displaced inode stays behind a name of the call's own |
| `World.PerformedParked` | crates/cli/src/fs_nofollow.rs:125-211 | each exchange, rename, create and unlink of the call keeps every displaced inode behind a name of its own, or counts it as unlinked |
| `World.AnythingCanHappen` | crates/cli/src/fs_nofollow.rs:358-545 | the others are free: any directory that agrees on the call's own names can come out of one turn of theirs, with any new inodes and any failure, without being impolite |
| `ManagedFile.DisplacedStaysLinked` | crates/cli/src/fs_nofollow.rs:400-457 | in a polite world every inode the call took from the target and did not give back, neither its own nor matching the expectation, is behind a temporary name of the call; nothing else is assumed of others |
| `ManagedFile.UntakenStaysLinked` | crates/cli/src/fs_nofollow.rs:358-545 | every inode linked at some moment of the call, neither its own nor matching the expectation, is linked at the end unless another process took its last name |
| `ManagedFile.SettledPromises` | crates/cli/src/fs_nofollow.rs:389-458 | what keeping or rolling back a committed replacement does is enough for harmlessness and for a single linearization point |
| `ManagedFile.Call.CreateTemporary` | crates/cli/src/fs_nofollow.rs:950-982 | a fresh inode under a name that did not exist; undisturbed, it fails iff all 32 names exist, and a failure changes no entry |
| `ManagedFile.Call.VacantName` | crates/cli/src/fs_nofollow.rs:984-989 | a name of the call's own that is vacant again; only the call's own inode is unlinked for it |
| `ManagedFile.Call.WriteTemporary` | crates/cli/src/fs_nofollow.rs:991-1010 | on success the inode holds exactly the contents and the mode; no other inode changes |
| `ManagedFile.Call.RemoveIdentity` | crates/cli/src/fs_nofollow.rs:165-211 | whatever others do to the public name, nothing but the expected inode and the call's own is unlinked and the target is not touched; undisturbed, exactly that name disappears, and a name that holds something else is put back each of 32 times |
| `ManagedFile.Call.Commit` | crates/cli/src/fs_nofollow.rs:125-163 | success is one transition of the target, from what is now behind the temporary name (or from absent) to the new inode; failure leaves the target alone; undisturbed, it succeeds iff the temporary name holds the new file and the target is present for an exchange and absent otherwise |
| `ManagedFile.Call.Observe` | crates/cli/src/fs_nofollow.rs:406-417 | an observation is a regular file, fully read, still behind the name at the last look |
| `ManagedFile.Call.Candidate` | crates/cli/src/fs_nofollow.rs:627-699 | a candidate is a regular file behind the temporary name; an entry that was there is never replaced; undisturbed, it is accepted iff it has the fallback's contents and mode, and a missing one is written anew with exactly those |
| `ManagedFile.Call.ExchangeBack` | crates/cli/src/fs_nofollow.rs:582-620 | the rollback exchange puts the displaced file back in place of the call's own, or puts it back and undoes that; once others are done, whatever else it found at the target is public again; undisturbed, the exact directory in every case |
| `ManagedFile.Call.UndoExchange` | crates/cli/src/fs_nofollow.rs:606-619 | the rollback of the rollback unlinks nothing and always reports failure; undisturbed, it exchanges exactly when the target holds the backup and the temporary name the displaced file, and then the displaced file is public and the backup retained |
| `ManagedFile.Call.Restore` | crates/cli/src/fs_nofollow.rs:563-625 | in every interleaving the target is changed at most by restoring the backup and undoing that; once others are done, a file that took the target's place is given back; undisturbed, the exact directory for a matching, another and a missing backup and for any target |
| `ManagedFile.Call.RestoreMissing` | crates/cli/src/fs_nofollow.rs:701-752 | nothing is unlinked; success is one transition from absent to the backup; once others are done the target is not vacant; undisturbed, it succeeds iff the target is vacant and the backup matches the fallback or is gone and written anew |
| `ManagedFile.Call.Draft` | crates/cli/src/fs_nofollow.rs:375-383 | a temporary file that could not be written is removed again |
| `ManagedFile.Call.Prepare` | crates/cli/src/fs_nofollow.rs:366-384 | the new file is ready under a temporary name with the contents and the mode (explicit, inherited or default); undisturbed, it fails iff the target is not a regular file, leaving no trace |
| `ManagedFile.Call.SettleWrite` | crates/cli/src/fs_nofollow.rs:389-458 | the displaced file is unlinked only if it matches the expectation, otherwise it is rolled back, and a concurrent replacement survives that; undisturbed, the exact directory, whether the replacement is still in place or not |
| `ManagedFile.Call.ReplaceExpected` | crates/cli/src/fs_nofollow.rs:386-458 | harmless and linearizable replacement of an expected file; undisturbed, exactly compare-and-swap |
| `ManagedFile.Call.CreateExpected` | crates/cli/src/fs_nofollow.rs:386-399 | harmless and linearizable creation over an expected absence; on success the new file is in place at the last look; undisturbed, exactly compare-and-swap |
| `ManagedFile.Call.WriteIfUnchanged` | crates/cli/src/fs_nofollow.rs:358-459 | in every interleaving no foreign inode is unlinked unless it matches the expectation; every other displaced inode is retained behind a temporary name, and no other file loses its last name through the call; success is one atomic transition from a matching entry (or absence) to the new contents; if nothing fails and others are done before the rollback, what the rollback displaced was the call's own or is public again; undisturbed, success iff the entry matches, and failure leaves the whole directory as it was |
| `ManagedFile.Call.RemoveIfUnchanged` | crates/cli/src/fs_nofollow.rs:467-545 | the same for removal, retention included; if nothing fails and others are done in time, a failure after displacing another file does not leave the target vacant; undisturbed, success iff the entry matches, and a failure restores the directory iff the target was absent or a regular file |
| `ManagedFile.DirectoryStaysDisplaced` | crates/cli/src/fs_nofollow.rs:531-543 | removing a directory fails and leaves it under another name |
| `RegistrySlot.NextKeeps` | crates/query/src/discovery.rs:235-404 | every file operation of any process keeps the invariant: one lock holder, unique tokens, complete temporaries before they are published, ownership read under the lock stays true until it is used |
| `RegistrySlot.OwnerChanges` | crates/query/src/discovery.rs:303-404 | in every reachable state one step changes the holder only from nobody to the claimant whose link succeeds, or from the holder a removal names to nobody; no heartbeat resurrects or overwrites |
| `RegistrySlot.ClaimOutcome` | crates/query/src/discovery.rs:235-269 | whatever the claimant's move and its outcome, the claim is reported won iff the link succeeded on an absent slot, which then holds exactly the claimant's complete entry; a failing link changes nothing |
| `RegistrySlot.ClaimReport` | crates/query/src/discovery.rs:257-259 | removing the temporary file, even in vain, alters neither the report nor the slot |
| `RegistrySlot.VisibleEntryIsWinners` | crates/query/src/discovery.rs:262-327 | the visible entry is always the last winner's own, up to the heartbeat, and an absent slot has no winner |
| `RegistrySlot.ClaimsBalance` | crates/query/src/discovery.rs:262-269 | successful claims and removals balance: they differ by whether the slot is held |
| `RegistrySlot.AtMostOneClaimBetweenRemovals` | crates/query/src/discovery.rs:262-269 | over any stretch of any run without a removal at most one claim succeeds |
| `RegistrySlot.GoneStepIsInert` | crates/daemon/src/runtime.rs:612-645 | a step taken for a token that left the slot changes nothing there: the ownership check stops the daemon, the heartbeat is rejected, the removal finds nothing |
| `RegistrySlot.LostClaimIsInert` | crates/daemon/src/runtime.rs:413-421 | the same after any further run: once lost, a claim's checks, heartbeats and shutdown removal never touch a successor |
| `RegistrySlot.RunKeeps` | crates/daemon/src/runtime.rs:112-140 | the invariant holds over every run of claiming, serving, checking, beating, stopping and crashing |
| `RegistrySlot.RemovalRemoves` | crates/query/src/discovery.rs:391-404 | an undisturbed removal vacates the slot iff it holds the entry it names, releases the lock and touches nothing else |
| `RegistrySlot.ShutdownVacates` | crates/daemon/src/runtime.rs:413-421 | a daemon that quits leaves the slot it owns vacant, and a successor's alone |
| `RegistrySlot.CheckDecides` | crates/daemon/src/runtime.rs:621-632 | an ownership check lets the owner go on and stops everyone else |
| `RegistrySlot.HeartbeatRefreshes` | crates/query/src/discovery.rs:303-327 | an undisturbed heartbeat of the owner leaves exactly its entry with the new heartbeat in the slot, and it goes on serving |
| `RegistrySlot.HeartbeatRejected` | crates/query/src/discovery.rs:319-325 | a heartbeat that does not find its own entry changes nothing and stops the daemon |
| `RegistrySlot.ClaimSettles` | crates/query/src/discovery.rs:235-260 | an undisturbed claim takes a vacant slot with exactly its entry and serves, and gives up on any other slot |
| `RegistrySlot.LockedStepsSucceed` | crates/query/src/discovery.rs:303-404 | in every reachable state the locked removal unlinks exactly the entry it named and the locked heartbeat publishes exactly its own, whatever others did since it was read |
| `RegistrySlot.FailuresChangeNothing` | crates/query/src/discovery.rs:235-404 | no failing operation and no crash changes the slot, and each leads where the error does |
| `EditDistance.AdvanceRow` | crates/query/src/lib.rs:3745-3758 | one in-place pass turns the row of distances for one prefix into the next prefix's |
| `EditDistance.Levenshtein` | crates/query/src/lib.rs:3745-3758 | the result is reached by a chain of that many single-character edits, and no shorter chain exists |
| `EditDistance.DistanceIsMinimum` | crates/query/src/lib.rs:3745-3758 | the recurrence equals the minimum length of an edit chain |
| `EditDistance.ZeroIffEqual` | crates/query/src/lib.rs:3745-3758 | the distance is zero iff the strings are equal |
| `EditDistance.Symmetric` | crates/query/src/lib.rs:3745-3758 | the distance is symmetric |
| `EditDistance.Triangle` | crates/query/src/lib.rs:3745-3758 | the triangle inequality, by merging two alignments |
| `QueryText.Tokenize` | crates/query/src/lib.rs:5357-5400 | fails iff a quote stays open; else the tokens are non-empty and together are the input without the white space outside quotes and brackets |
| `QueryText.Lossless` | crates/query/src/lib.rs:5357-5400 | the same from any state inside the input |
| `QueryText.UnescapeQuoted` | crates/query/src/lib.rs:5458-5471 | the loop removes exactly the escaping backslashes |
| `QueryText.UnescapeEscape` | crates/query/src/lib.rs:5458-5471 | unescaping undoes escaping, for every string |
| `QueryText.ScalarOfQuote` | crates/query/src/lib.rs:5402-5409 | every string, quoted and escaped, is read back unchanged |
| `QueryText.CollectTokens` | crates/query/src/lib.rs:5312-5330 | the loop distributes tokens over fields and positional values one by one |
| `QueryText.QuotedFieldSurvives` | crates/query/src/lib.rs:5312-5330 | on one line, a field with a quoted value is one token and one field whose value is the original string, whatever characters it has (a query is cut at newlines before it is tokenized, so a text with a newline never arrives whole) |
| `QueryText.LineSurvives` | crates/query/src/lib.rs:5312-5330 | a line of any number of quoted, bare and list fields and quoted arguments without colons, each followed by its own white space (the last optionally), is read as exactly those in order, each value meaning what was written |
| `QueryText.QuotedPositionalSurvives` | crates/query/src/lib.rs:5312-5330 | a quoted positional is one token, and its value comes back iff it contains no colon |
| `QueryText.ColonSplitsQuotedPositional` | crates/query/src/lib.rs:5312-5330 | a concrete quoted positional that turns into a field |
| `QueryText.SplitStructuredCsv` | crates/query/src/lib.rs:5427-5456 | the loop with its escape flag computes the recursive splitting of a list text |
| `QueryText.ListSurvives` | crates/query/src/lib.rs:5411-5425 | quoted list items that are trimmed, non-empty and free of quotes and backslashes come back in order, commas included |
| `QueryText.ListIsOneToken` | crates/query/src/lib.rs:5357-5400 | a list field is one token and one field, spaces and commas included |
| `QueryText.BracketedIsOneToken` | crates/query/src/lib.rs:5375-5389 | text in brackets is one token, whatever white space and nested brackets it has |
| `QueryText.StrayBracket` | crates/query/src/lib.rs:5379-5382 | a closing bracket without an opening one does not hide the white space behind it |
| `QueryText.CommaListSurvives` | crates/query/src/lib.rs:5411-5425 | plain items without commas, joined by commas without brackets, come back in order |
| `QueryText.ScalarOfEscaped` | crates/query/src/lib.rs:5402-5409 | an unquoted value loses only its escaping |
| `QueryText.BareArgumentSurvives` | crates/query/src/lib.rs:5325-5327 | a bare argument is read without the commas behind it |
| `Whitespace.TrimTakesBlanks` | crates/query/src/lib.rs:5402-5409 | trimming takes white space from both ends and nothing else |
| `QueryRequest.NormalizeFieldAliases` | crates/query/src/lib.rs:3380-3394 | every key is renamed in place, values and order kept |
| `QueryRequest.CorridorCarriesDefaultPage` | crates/query/src/lib.rs:3579-3655 | accepted corridor fields always parse to the default page, which the direct validator demands |
| `QueryRequest.BuiltQueriesAreValid` | crates/query/src/lib.rs:3885-3994 | whatever the builder returns passes the direct validator |
| `QueryRequest.ParsedRequestsAreValid` | crates/query/src/lib.rs:801-875 | every request the parser accepts passes the direct validator, across aliases, defaults, bounds, scopes and paging |
| `QueryRequest.SameNameExactlyFor` | crates/query/src/lib.rs:3380-3394 | `limit` and `max_items` name one field exactly for `symbol.graph`, `identity.children` and `change.context` |
| `QueryRequest.AliasesAreInterchangeable` | crates/query/src/lib.rs:3348-3394 | for those verbs a value under either name, at any place among the fields, makes the same request |
| `QueryRequest.MaxItemsIsRejectedElsewhere` | crates/query/src/lib.rs:3579-3655 | for every other verb a request with `max_items` is refused |
| `QueryRequest.RenamingIsFinal` | crates/query/src/lib.rs:3380-3394 | renaming twice changes no request |
| `QueryRequest.CapabilitiesAreCoherent` | crates/query/src/lib.rs:3657-3665 | required fields are declared, and a positional argument stands for the first of them |
| `RequestContents.NumberReads` | crates/query/src/lib.rs:5283-5294 | a field written as a number is read as that number, an absent one as its default |
| `RequestContents.ManyReads` | crates/query/src/lib.rs:5303-5309 | a list field is read as all items given under its key, in order |
| `RequestContents.PathFieldsAccepted` | crates/query/src/lib.rs:3579-3655 | `graph.path` accepts a list of fields iff all are known, none contradicts another, and both ends are given |
| `RequestContents.PathCarriesFields` | crates/query/src/lib.rs:3911-3945 | `graph.path` with fields in any order yields exactly the request they denote, ends, words, relations and limits, iff the fields are accepted, the words are the language's and the direct validator accepts that request |
| `RequestContents.PathBounds` | crates/query/src/lib.rs:902-928 | the direct validator's bounds on a path request, in numbers |
| `RequestContents.CorridorFieldsAccepted` | crates/query/src/lib.rs:3579-3655 | the same acceptance for `graph.corridor`, which also wants a relation |
| `RequestContents.CorridorCarriesFields` | crates/query/src/lib.rs:3947-3985 | the same for `graph.corridor`: each facet of the scope holds exactly what was given under its own key |
| `RequestContents.CorridorBounds` | crates/query/src/lib.rs:1541-1605 | the direct validator's bounds on a corridor request, in numbers |
| `RequestContents.ParsedAsNamed` | crates/query/src/lib.rs:3380-3394 | a request is that of its fields under the names the verb knows them by |
| `RequestContents.EitherSizeCounts` | crates/query/src/lib.rs:3380-3394 | the size under `limit` or `max_items` is the size of the query |
| `RequestContents.SymbolGraphCarriesFields` | crates/query/src/lib.rs:3865-3883 | `symbol.graph` yields exactly the request its fields denote |
| `RequestContents.SymbolGraphFieldsAccepted` | crates/query/src/lib.rs:3579-3655 | and accepts its fields iff they are known and agree, also with the focus in front, which may stand for its field |
| `RequestContents.IdentityChildrenCarriesFields` | crates/query/src/lib.rs:3840-3851 | the same for `identity.children` |
| `RequestContents.IdentityChildrenFieldsAccepted` | crates/query/src/lib.rs:3579-3655 | whose prefix is optional |
| `RequestContents.ChangeContextCarriesFields` | crates/query/src/lib.rs:3528-3543 | the same for `change.context` |
| `RequestContents.ChangeContextFieldsAccepted` | crates/query/src/lib.rs:3579-3655 | whose focus is required |
| `RequestContents.BoundedBuilders` | crates/query/src/lib.rs:3840-3909 | the three bounded builders accept exactly the sizes and words the validator accepts, and carry every field unchanged |
| `RequestContents.PageCarriesCursor` | crates/query/src/lib.rs:5274-5281 | the limit and the cursor reach the page |
| `RequestContents.OtherCarriesPage` | crates/query/src/lib.rs:3348-3378 | every other verb yields a request with the page given iff its fields are accepted |
| `Paging.OnlyForeignCursorsAreRejected` | crates/daemon/src/pagination.rs:32-45 | a page is refused iff its cursor is of another generation |
| `Paging.PageIsStretch` | crates/daemon/src/pagination.rs:10-30 | a page is the stretch of rows from the cursor on, at most as long as asked for, with the number of all rows and the cursor behind it iff rows are left |
| `Paging.CursorTextSurvives` | crates/query/src/lib.rs:5332-5355 | a printed cursor parses to itself if it carries a generation, and is an error otherwise |
| `Paging.FollowPages` | crates/daemon/src/pagination.rs:10-30 | for every input on which following ends, the client collects exactly the rows in order, in the least number of requests, or is rejected because the bare cursor does not read back |
| `Paging.FollowIsOutcome` | crates/daemon/src/pagination.rs:10-30 | exactly what any number of requests yields: all rows, a rejection, or not finished |
| `Paging.FollowingEnds` | crates/daemon/src/pagination.rs:10-30 | some number of requests yields exactly the rows iff one page holds them, or the limit is at least one and the cursor survives |
| `Paging.FollowingCannotEnd` | crates/daemon/src/pagination.rs:10-30 | otherwise a client that keeps cursors never finishes, and one that re-reads text is rejected |
| `Paging.RereadIsParsed` | crates/query/src/lib.rs:5274-5281 | a cursor sent back as a field passes tokenizer, field splitting and value reading unchanged |
| `Paging.LimitZeroNeverProgresses` | crates/daemon/src/pagination.rs:23-24 | with limit zero every page points at itself |
| `Decimal.ParsePrint` | crates/query/src/lib.rs:5332-5355 | a printed number parses to itself iff it is in range |
| `SyntaxTree.CutIsPrefix` | crates/daemon/src/syntax.rs:147-183 | cutting a tree to n nodes keeps exactly the first n visits of its preorder |
| `SyntaxTree.PruneSize` | crates/daemon/src/syntax.rs:465-480 | limiting the depth loses nodes unless it changes nothing |
| `SyntaxTree.PruneIsByDepth` | crates/daemon/src/syntax.rs:465-480 | limiting the depth keeps exactly the visits at most that much deeper than the root |
| `SyntaxRender.Build` | crates/daemon/src/syntax.rs:447-503 | one call returns the merged tree, depth-limited and cut to the budget left, and takes exactly its size from the shared counter |
| `SyntaxRender.BuildChildren` | crates/daemon/src/syntax.rs:585-638 | the hosted region and then the children, until the budget is spent, are the cut of all of them |
| `SyntaxRender.BuildHosted` | crates/daemon/src/syntax.rs:505-528 | a hosted region is rendered first, within the budget |
| `SyntaxRender.NodeIsRendered` | crates/daemon/src/syntax.rs:447-503 | the merged tree of a node shows its kind, whether it is named and its range in the document, then the region it hosts, then its named children, or all of them, in order and nothing else |
| `SyntaxRender.HostedRegionIsRendered` | crates/daemon/src/syntax.rs:402-411 | a region is shown below a node iff the node can host one, it is the first that starts with the node and ends within it, and its text can be read |
| `SyntaxRender.OnlyNamedBelow` | crates/daemon/src/syntax.rs:670-677 | with `named_only` everything below the node is named or the root of a region |
| `SyntaxRender.PlainDocument` | crates/daemon/src/syntax.rs:447-503 | a document without regions is rendered in full as the tree it was parsed into |
| `SyntaxRender.CountDocumentNodes` | crates/daemon/src/syntax.rs:420-435 | the explicit stack counts every visible node and the regions they host |
| `SyntaxRender.TotalIsFullSize` | crates/daemon/src/syntax.rs:413-418 | the total of a region, counted by its list of nested regions, is the size of its merged tree when each nested region has exactly one visible host |
| `SyntaxRender.DocumentSizeIsFullSize` | crates/daemon/src/syntax.rs:420-435 | the same for a document |
| `SyntaxRender.RenderDocument` | crates/daemon/src/syntax.rs:140-204 | the rendered preorder is the first `max_nodes` visits of the depth-limited merged tree, `emitted_nodes` is its size, and `truncated` is false iff the whole merged tree was returned |
| `TextPosition.PositionAppend` | crates/daemon/src/syntax.rs:541-555 | rows add up under concatenation, and columns continue or restart |
| `SourceOrigin.ChainedOriginIsDirect` | crates/daemon/src/syntax.rs:595-606 | at any depth of nesting the chained origin is where the document says the slice starts |
| `SourceOrigin.TranslationIsDirect` | crates/daemon/src/syntax.rs:657-668 | for any nested slice of prefix-free parents, any prefix without newlines on the innermost one and any offset, the translated byte, line and column are the document's own |
| `SourceOrigin.TranslationInRange` | crates/daemon/src/syntax.rs:657-668 | in a document within 32 bits that position is one plus the newlines before it and the bytes since the last |
| `SourceOrigin.PrefixedParentOrigin` | crates/daemon/src/syntax.rs:587-607 | below a parent with a prefix, itself nested to any depth, the chained origin is the document's own iff no newline lies between the parent's start and the nested slice, because the offset is looked up in the prefixed text unshifted |
| `SourceOrigin.PrefixHidesNewline` | crates/daemon/src/syntax.rs:587-607 | a concrete document on which the row and column come out wrong |
| `SourceOrigin.PositionBehindPrefix` | crates/daemon/src/syntax.rs:657-668 | a prefix without newlines shifts columns of the first row only |
| `Glob.GlobToRegex` | crates/workspace/src/glob.rs:11-32 | the emitted text, read in the syntax of the expression engine, matches exactly the paths the glob matches directly |
| `Regexes.TextReadsBack` | crates/workspace/src/glob.rs:22-28 | every sequence of emitted pieces, metacharacters escaped, is read back as itself |
| `Glob.PlainPathText` | crates/workspace/src/glob.rs:67-71 | the two texts for a plain path read as the literal path and the path with anything below it |
| `Glob.CompilePreservesMeaning` | crates/workspace/src/glob.rs:11-32 | the same for every pattern and every path, by cases of the glob |
| `Glob.SingleStarKeepsSegments` | crates/workspace/src/glob.rs:11-32 | without `**` a match has as many slashes as the pattern: wildcards never cross a slash |
| `Glob.SingleStarMatchesBySegment` | crates/workspace/src/glob.rs:11-32 | without `**` a path matches iff it has as many segments as the pattern and each segment matches its counterpart |
| `Glob.PatternMeaning` | crates/workspace/src/glob.rs:63-72 | a pattern without wildcards matches exactly itself and its subtree (no newline below it), any other its glob |
| `Glob.FilterMeaning` | crates/workspace/src/glob.rs:40-60 | a filter accepts a path iff it is empty or one of its patterns selects the path with forward slashes |
| `Glob.CompileRejectsBlank` | crates/workspace/src/glob.rs:40-84 | a filter fails to compile iff some pattern is blank |
| `Glob.DotSlashIsDropped` | crates/workspace/src/glob.rs:74-84 | a pattern behind `./`, with either separator, means what it means without |
| `Glob.SlashIsDropped` | crates/workspace/src/glob.rs:74-84 | a pattern behind a slash means what it means without iff it does not begin with `./` |
| `Glob.EitherSeparator` | crates/workspace/src/glob.rs:49-60 | separators of either kind in a path make no difference |
| `LineIndex.NewIndex` | crates/workspace/src/lines.rs:24-35 | the loop records exactly the line starts |
| `LineIndex.StartsAscend` | crates/workspace/src/lines.rs:24-35 | line starts are strictly ascending |
| `LineIndex.PartitionPoint` | crates/workspace/src/lines.rs:44-46 | bisection separates the starts up to the offset from those behind it |
| `LineIndex.LineAt` | crates/workspace/src/lines.rs:44-46 | the looked-up line is one plus the newlines before the offset, in 32 bits |
| `LineIndex.IndexedLineRange` | crates/workspace/src/lines.rs:4-42 | the index returns the range that counting newlines returns, for every start and end, out of range and reversed included |
| `LineIndex.LineRangeMeans` | crates/workspace/src/lines.rs:1-15 | a range covers the lines of its first and last byte, and an empty, reversed or out-of-range one the line where it starts |
| `SourceGroups.ValidateUniqueRoots` | crates/workspace/src/source_group.rs:201-216 | accepts iff no two roots are the same path |
| `SourceGroups.ValidateGroupBoundaries` | crates/workspace/src/source_group.rs:218-235 | accepts iff no root of one group contains a root of another |
| `SourceGroups.FromConfig` | crates/workspace/src/source_group.rs:76-86 | the roots deepest first iff both validations pass |
| `SourceGroups.NestedRootsAreAccepted` | crates/workspace/src/source_group.rs:218-235 | a root below another of its group is accepted in either order |
| `SourceGroups.NestedGroupsAreRejected` | crates/workspace/src/source_group.rs:218-235 | a root below another of a different group is rejected in either order |
| `SourceGroups.SortIsDeepestFirst` | crates/workspace/src/source_group.rs:76-86 | the sorted roots have non-increasing depth |
| `SourceGroups.ContainingRootsShareGroup` | crates/workspace/src/source_group.rs:218-235 | all roots of an accepted configuration that contain a file are of one group |
| `SourceGroups.MembershipIsDeepest` | crates/workspace/src/source_group.rs:88-102 | a file has a membership iff some root covers it by either path; it is then a deepest such root, and the unique deepest one when no alternate path is involved |
| `SourceGroups.FirstDeclaredAnswers` | crates/workspace/src/source_group.rs:76-102 | the depth sort is stable, so sorting and searching finds the first declared among the deepest roots that cover the file |
| `SourceGroups.DeclarationOrderIsIrrelevant` | crates/workspace/src/source_group.rs:76-102 | every order of the listed roots gives a file the same group and srcset iff all deepest roots that cover it agree on them |
| `SourceGroups.OrderWithinGroups` | crates/workspace/src/source_group.rs:78-84 | every order within the groups, which are declared one after the other, gives the same answer iff the deepest covering roots of the first group that has one agree on the srcset |
| `SourceGroups.GroupIsSettled` | crates/workspace/src/source_group.rs:78-84 | the group of the answer never depends on the order within the groups |
| `SourceGroups.CanonicalOrderIsIrrelevant` | crates/workspace/src/source_group.rs:76-102 | so the order never matters for a file that no alternate path covers |
| `SourceGroups.LinkedRootsDependOnOrder` | crates/workspace/src/source_group.rs:158-171 | a root and a second one declared through a link below it are accepted in both orders, and a file under the link gets the group and srcset of whichever is declared first |
| `ResolutionAudit.ClassifyReference` | crates/workspace/src/audit.rs:368-470 | exactly one category is counted, by the first decision that applies; nothing is returned iff the reference is bound by identity or known to be external, and otherwise the decision's own status, reason and evidence |
| `ResolutionAudit.TotalsCountDecisions` | crates/workspace/src/audit.rs:368-470 | every total is the number of references in scope with its decision, read off the lookups: bindings by identity, by name and dangling, candidates, weak matches, each external origin, runtime, policy and none, in that order of precedence |
| `ResolutionAudit.CountedBalance` | crates/workspace/src/audit.rs:368-470 | one more reference keeps the categories a partition |
| `ResolutionAudit.AuditReference` | crates/workspace/src/audit.rs:263-313 | one pass of the loop updates totals, cluster and zone for a reference in scope, and nothing otherwise |
| `ResolutionAudit.AuditAllHolds` | crates/workspace/src/audit.rs:253-366 | each total is the number of scoped references of its category; each cluster counts and samples exactly its members; each zone counts its members, and under each label exactly the members captioned so; without a filter the sums agree with the totals |
| `ResolutionAudit.ClusterIsDecisions` | crates/workspace/src/audit.rs:275-306 | the members of a cluster are open references in scope, and its status, reason and evidence are the decision about each |
| `ResolutionAudit.ZoneIsDecisions` | crates/workspace/src/audit.rs:307-312 | the members of a zone are references in scope of that zone that nothing was decided about |
| `ResolutionAudit.FilterKeepsOneCluster` | crates/workspace/src/audit.rs:284-290 | a cluster filter leaves the cluster it names as it is, and no other |
| `ResolutionAudit.RunAudit` | crates/workspace/src/audit.rs:253-332 | the same for the maps and totals the loop leaves, and references = explained + unknown external + unresolved |
| `Ranking.Rank` | crates/workspace/src/audit.rs:343-344 | whatever order the map yields, sorting and truncating leaves the largest counts, largest first, none twice, and nothing larger left out |
| `Ranking.MostFrequent` | crates/workspace/src/audit.rs:351-355 | a key with the largest count, or the empty string when there is none |
| `ResolutionAudit.DominantCaption` | crates/workspace/src/audit.rs:351-355 | the most frequent label of a zone is the most frequent caption among its members |
| `ResolutionAudit.AuditReport` | crates/workspace/src/audit.rs:253-366 | the returned report: totals that partition the references, the largest clusters with their members counted and sampled, and the largest zones with a dominant caption no other exceeds |
| `ResolutionAudit.PagesYieldMembers` | crates/workspace/src/audit.rs:253-366 | audits with consecutive sample windows yield a cluster's members in order, as far as the windows reach |
| `CacheEntry.StoredBytes` | crates/workspace/src/cache.rs:138-150 | what is stored validates under exactly this key and gives back exactly the body, for a path below 2^32 bytes; for a longer path it never validates again |
| `CacheEntry.HeaderReadsBack` | crates/workspace/src/cache.rs:242-274 | every header field reads back from its offset |
| `CacheEntry.HeaderCarries` | crates/workspace/src/cache.rs:242-274 | path and body lie where the reader looks, whatever they are |
| `CacheEntry.EntryDiscriminates` | crates/workspace/src/cache.rs:242-274 | stored bytes validate under exactly the key they were stored with, and then give exactly the body (path below 2^32 bytes) |
| `CacheEntry.LongPathIsLost` | crates/workspace/src/cache.rs:148-149 | with a path of 2^32 bytes or more the length is cut and the entry is refused under its own key |
| `CacheEntry.ValidatesIffCarried` | crates/workspace/src/cache.rs:242-274 | any bytes validate under a key iff they carry the magic number, this version, the key's fields and path, and then give what follows |
| `CacheEntry.OtherFormatsAreRefused` | crates/workspace/src/cache.rs:246-253 | bytes with another magic number or format version are refused |

## Left out

- Opening the parent directory, path-component checks, the lock around the conditional calls, the C library and error texts of `fs_nofollow.rs`: the model starts at an open directory.
- Inode numbers are never reused and other processes replace files by renaming: an inode's contents only change through the call that created it.
- Temporary names that others touch: the safety claims need `polite`, the assumption the generated names rest on; without it only consistency is stated.
- `write_registry_entry`, an unconditional overwrite outside the protocol, and the lock variant for systems without `flock`.
- Conflicts between roots of different registry slots: that check and the claim are not one step, so only exclusion per slot is decided.
- RegistrySlot.RunKeeps: heartbeat expiry and process liveness, which decide when clients remove an entry, are not modelled; any process may ask to remove any entry at any time, which covers them.
- The cutting of a query into lines, recognition of verbs and field names in text, the `filter` and `project` lines, the known names of projected columns, and the parts of queries the validator does not look at.
- QueryRequest.ParsedRequestsAreValid: starts from the collected fields with recognized names; the queries the validator does not constrain are one constructor, so parse errors inside them are not modelled.
- QueryText.ListSurvives: items with quotes or backslashes are unescaped twice by the code and do not round-trip.
- SyntaxRender.Build: `build_document_node`, `build_injection_node` and `build_injected_tree_node` are one recursion over a region that carries their differences; text excerpts, error flags, line numbers and the names of languages are not part of the rendered value.
- SyntaxRender.CountDocumentNodes: the plain `count_nodes` loop is represented by the size function it computes; counts are unbounded integers, so saturation at the machine word is not modelled.
- SourceOrigin.TranslationIsDirect: slices are byte slices; that they fall on character boundaries is taken as given. Below a parent with a prefix the exact condition is stated for the origin, in `PrefixedParentOrigin`.
- The expression engine: expressions have a language by definition, and the reader of their text covers the part of the syntax the compiler emits.
- LineIndex.IndexedLineRange: sums wrap at 32 bits as in a release build; a debug build would stop at 2^32 lines.
- Parsing of the source-group configuration and of the file system paths in it.
- ResolutionAudit.AuditReport: sample excerpts and the text of pattern identifiers, labels and zones, which are parameters.
- The encoding of the cached graph, the hashes in the key, and reading and writing the file.
- Linkage, rule evaluation, moniker encoding, tree-sitter, the command line, transports, telemetry and the user interfaces.
