# A verified model of CLICON

CLICON is a configuration manager: clients edit a candidate database, and a commit takes the changes to the running
database while plugins are told about every key that changed. This project models its cores in Dafny and proves what
they keep, for every input, every run and every reachable state of the model. Where the model takes in less than the code
does, the section "Left out" says so.

| files | what they model |
|---|---|
| `Cvec`, `ListIndex`, `ContentList`, `ScanList`, `ListVariants`, `ListApart` | variable vectors, and lists inside the key-value store in both compile-time variants: content keys (`DB_KEYCONTENT`) and linear scan with reuse of holes; when the two hold the same, and when they come apart |
| `Lvec` | the byte form of a variable vector |
| `Sorting`, `DbDiff`, `FastDiff`, `DatabaseDiff`, `ApplyDiff` | the difference of two databases, in the quadratic and the sort-and-merge form, and what it means to apply it |
| `KeyPattern`, `SpecMatch`, `DbDep`, `CommitVec` | the hand-written matchers of keys against `A[].B[]`, dependencies, and the sorted commit vector |
| `CommitTrace`, `CommitLog`, `CommitSteps`, `CommitLaw`, `Commit`, `CommitRestore` | the commit transaction under its three orders, with validation, copies and rollback |
| `ChunkPool`, `ChunkGroups`, `Chunk` | the chunk allocator with size classes, reference-counted blocks and named groups |
| `Queue`, `Hash`, `SpecList` | circular queues in memory, the hash table built on them, and the indexed specification list |
| `Lock` | the candidate lock as a protocol of client messages |
| `Proto`, `Wire` | the client messages, their framing and split reads |
| `Filter` | the NETCONF subtree filter (section 6 of RFC 4741) |

How the model speaks about the source:

- A database of the list index is a map from structured keys (`A.n`, `A.n.<digest>`, `A.<i>`, others) to values, and
  SHA-1 is an injective function. A database of a commit is its plain keys and the items of its lists.
- Plugins are functions from a call and a state to a result and a new state. A ghost log holds what a run does; the
  state of the plugins is always the replay of the log, so a statement about the log is one about the plugins.
- The clock, the network, failing copies, where `mmap` puts a block, and what a system call returns are
  nondeterministic choices. A system call is interrupted only finitely often.
- Values are compared by an arbitrary total order.
- Classes stand for what the source updates in place: the list of a database, the list of differences, the backend, the
  allocator, queue elements and hash buckets, the specification list, the message buffer, the socket, the XML tree.
- The macros of `clicon_queue.h` are proved on linked elements in `Queue`, and `Hash` uses them so. The lists of chunks,
  blocks and group entries in the allocator are sequences, on which the same macros insert in front and remove.

Where the code and its own description differ, the model follows the code:

- `lv_matchvar` exchanges its handles between the two laps but walks the same vectors both times, so it looks in one
  direction only. `ApplyDiff.ListDiffApplies` says exactly when this makes a difference incomplete.
- When the deletion walk of commit order 1 or 2 fails, the comment promises to add the keys back; the code deletes again
  with source and target exchanged. `CommitTrace.RollbackIsMirror` says exactly when the rollback is the mirror of what
  was done, and `CommitRestore.RestoredExactly` when the plugins are restored.
- `db_gen_rxkey` escapes nothing, while `db_regexp` compiles extended expressions: a dot finds any character, and a sign
  of repetition in a name hides the keys of the line (`SpecMatch.RegexIsExact`, `SpecMatch.KeysFoundExactly`).
- The comparison of the scanned list looks at the flags and types of the variables, the content key only at the values of
  the unique names, and nothing checks what a client sends: `ListApart.AgreesExactly` says which operations keep the two
  variants alike.
- Deletion from a scanned list is described to shrink `A.n` to the nearest unused index; the code starts anew at every
  entry that it removes, so free indices below the last one removed stay counted, and `A.n` ends one above.
- A second run of the subtree filter can remove more than the first: `Filter.StableExactly`.
- The attribute test of the subtree filter looks the attribute up in the filter and not in the data.
- A pattern of a dependency that ends in a plain character also accepts a key that is one character short.
- A group name that is too long for any chunk leaves the header of the new group allocated.
- An end of stream inside a message header is reported like one between messages.
- The message described as (re-)initialising a database creates it when it is missing and does not empty it otherwise.

## Model

| member | source | states |
|---|---|---|
| Cvec.LvMatchvar | lib/src/clicon_lvalue.c:384-422 | the comparison answers exactly: every (unique) variable of the first vector has a variable of its name, type and value, or a wildcard, in the second; both laps look in that one direction |
| Cvec.MatchIsOneWay | lib/src/clicon_lvalue.c:391-419 | there are vectors that match one way and not the other |
| Cvec.OrderDoesNotMatter | lib/src/clicon_lvalue.c:384-422 | vectors with the same variables in another order match |
| Cvec.CvecMerge | lib/src/clicon_dbutil.c:137-154 | the first vector followed by the set variables of the second whose names it lacks, and how many were added |
| Cvec.MergeLookup | lib/src/clicon_dbutil.c:144-152 | after a merge a name of the first vector keeps its value, any other takes the first set value of the second |
| Cvec.MergeExtends | lib/src/clicon_dbutil.c:144-152 | a merge only appends, and only what was missing |
| ListIndex.OverlayLookup | lib/src/clicon_lvalue.c:783-802 | after a merge every name of the item reads as the new value, else the stored one, else the default of the specification |
| ListIndex.SetLookup | lib/src/clicon_lvalue.c:735-743 | after a set every name of the item reads as the new value, else the default, and no other item changes |
| ListIndex.FilledTuple | lib/src/clicon_lvalue.c:735-743 | what is stored for an item has the unique tuple the item was stored under |
| ListIndex.MergeKeepsTuple | lib/src/clicon_lvalue.c:784-795 | merging stored variables in does not move an item to another tuple |
| ListIndex.StepsSnoc | lib/src/clicon_lvalue.c:1215-1260 | the meaning of a run followed by one more operation is that operation applied to the meaning of the run |
| ContentList.ContentKeysPointAtEntries | lib/src/clicon_lvalue.c:517-593 | in every reachable database content keys lead one to one to indices below A.n, and entry A.i exists exactly when the content key of its own unique values points at i |
| ContentList.ContentKeyFound | lib/src/clicon_lvalue.c:570-588 | the content key of a tuple is there exactly when the tuple is, and leads to its index |
| ContentList.RepresentsOne | lib/src/clicon_lvalue.c:517-593 | a database stands for one map from unique tuples to variables only |
| ContentList.InsertRepresents | lib/src/clicon_lvalue.c:580-588 | a new tuple takes the index A.n, which becomes larger, and everything else is as before |
| ContentList.RemoveRepresents | lib/src/clicon_lvalue.c:872-924 | without its entry and content key a tuple is gone and all others stay |
| ContentList.List.UniqueStr | lib/src/clicon_dbutil.c:583-644 | the digests of the unique values in the order of the specification, or nothing when one is missing or there is none |
| ContentList.List.VecFind | lib/src/clicon_lvalue.c:534-593 | the index of the matching tuple, or a new one with its content key and the counter written |
| ListIndex.LvSet | lib/src/clicon_lvalue.c:685-751 | the key holds the variables and after them the defaults of the specification |
| ListIndex.MergeStored | lib/src/clicon_lvalue.c:783-795 | the variables followed by those stored that they lack |
| ContentList.List.VecSet | lib/src/clicon_lvalue.c:758-809 | set and merge act on the map of the list as update and overlay; keys of other lists are untouched and no index is issued twice |
| ContentList.List.VecDel | lib/src/clicon_lvalue.c:872-924 | delete removes the tuple from the map of the list and nothing else |
| ContentList.List.Exec | lib/src/clicon_lvalue.c:1215-1260 | one operation acts on the database as Step acts on the map |
| ContentList.List.Run | lib/src/clicon_lvalue.c:1215-1260 | any sequence of operations acts on the database as Steps acts on the map; indices are only ever added to those issued |
| ScanList.MatchIsCover | lib/src/clicon_lvalue.c:384-422 | a conforming row matches any vector exactly when every unique name of the specification is bound in it to a wildcard, or to the specified type with the value of the row |
| ScanList.MatchIsTupleEquality | lib/src/clicon_lvalue.c:384-422 | so for conforming vectors the one-way comparison of unique variables decides equality of unique tuples |
| ScanList.FilledConforms | lib/src/clicon_lvalue.c:735-743 | what is stored conforms exactly when what was sent has the specified types and flags; wildcards are not stored |
| ScanList.HitIsCover | lib/src/clicon_lvalue.c:599-671 | a row is never taken for a hole, and the scan accepts it exactly when the unique names are covered |
| ScanList.ActsAsStep | lib/src/clicon_lvalue.c:1215-1260 | an operation with any variables acts on a scanned list as on its map, and leaves a list that stands for a map, if and only if it fits: what it stores is typed and flagged as specified and the first match is the entry of its tuple, or what it deletes is that entry and no other |
| ScanList.AgreesFits | lib/src/clicon_lvalue.c:1215-1260 | an operation that agrees with the specification fits every list |
| ScanList.WriteRepresents | lib/src/clicon_lvalue.c:599-671 | writing a row over the entry of its tuple, or to a free index, updates the map |
| ScanList.WriteElsewhere | lib/src/clicon_lvalue.c:599-671 | writing any other entry loses a row or gives a tuple a second entry |
| ScanList.LeftRepresents | lib/src/clicon_lvalue.c:930-994 | entries that stay exactly for the tuples that stay, below any sufficient A.n, stand for the smaller map |
| ScanList.List.VecFind | lib/src/clicon_lvalue.c:599-671 | for any variables: the first entry that matches; without one the least free index below A.n, which stays; and only when none is free a new index, for which A.n grows by one; an entry without variables counts as free |
| ScanList.List.VecSet | lib/src/clicon_lvalue.c:758-809 | for any variables: at that index, and at no other, stands afterwards what is sent, what is merged in and the defaults; live entries stay below A.n |
| ScanList.List.Sweep | lib/src/clicon_lvalue.c:930-994 | for any variables: the walk erases every entry that matches and says where the free indices at the end start |
| ScanList.List.VecDel | lib/src/clicon_lvalue.c:930-994 | for any variables: every match is gone and every other entry stays; A.n ends one above the last entry if that was removed, else it keeps one free index above it |
| ScanList.IndexIsPlaced | lib/src/clicon_lvalue.c:645-657 | the index of an item is that of the first match, else the least free one, else a new one |
| ScanList.DelRemoves | lib/src/clicon_lvalue.c:944-986 | what a deletion leaves, and the value of A.n, by the last entry below it |
| ScanList.List.Exec | lib/src/clicon_lvalue.c:1215-1260 | any operation, with the index and the A.n that go with it; on a list that stands for a map it acts as Step if and only if it fits |
| ScanList.List.Run | lib/src/clicon_lvalue.c:1215-1260 | any sequence of operations; operations that agree with the specification act as Steps, the same function as for the variant with content keys |
| ListVariants.SameContents | lib/src/clicon_lvalue.c:517-671 | two lists with equal contents, one of each variant, have equal contents after any sequence of operations that agree with the specification |
| ListApart.AgreesExactly | lib/src/clicon_lvalue.c:517-671 | the condition is exact: an operation makes no difference between the variants, in any run of operations that agree, if and only if it agrees itself (a unique name has one type) |
| ListApart.FlagsDecide | lib/src/clicon_lvalue.c:384-422 | the flags of a stored row are those of the specification if and only if its comparison with every conforming item is equality of tuples |
| ListApart.OtherTypeComesApart | lib/src/clicon_lvalue.c:599-671 | an item set, and set again with a variable of another type: the scan then holds the first item, the list with content keys does not |
| ListVariants.StepsRowsOk | lib/src/clicon_lvalue.c:1215-1260 | whatever agreeing operations a list went through, every row has its own tuple and no wildcard |
| ListVariants.ContentItems | lib/src/clicon_lvalue.c:534-593 | the entries of a list with content keys are the rows of its map |
| ListVariants.ScanItems | lib/src/clicon_lvalue.c:599-671 | the entries of a scanned list are the rows of its map |
| ListVariants.ContentListIsComparable | apps/config/config_dbdiff.c:189-253 | the items read from a list with content keys have distinct unique tuples, which the comparison of databases relies on |
| ListVariants.ScanListIsComparable | apps/config/config_dbdiff.c:189-253 | so have the items read from a scanned list |
| Lvec.RoundTrip | lib/src/clicon_dbutil.c:301-474 | decoding an encoded vector gives it back if and only if no name of a variable starts with the mark of unique variables (lengths below 2^16) |
| Lvec.EncodeInjective | lib/src/clicon_dbutil.c:410-474 | different vectors have different bytes |
| Lvec.MarkedNameCollides | lib/src/clicon_dbutil.c:446-459 | without that condition two different vectors share their bytes |
| Lvec.EvenIsPaired | lib/src/clicon_dbutil.c:328-358 | a framed buffer is a whole number of name and value pairs exactly when it holds an even number of lvalues |
| Lvec.Measure | lib/src/clicon_dbutil.c:426-437 | the length computed in advance is the number of bytes written |
| Lvec.VariableLaidOut | lib/src/clicon_dbutil.c:439-470 | every variable is where the ones before it end: the name, marked when it is unique, and the value, each with its type, its length and its bytes |
| Lvec.Cvec2lvec | lib/src/clicon_dbutil.c:410-474 | the buffer holds the encoding, all of it |
| Lvec.CountLvalues | lib/src/clicon_dbutil.c:314-321 | the number of lvalues in the buffer |
| Lvec.ReadPairs | lib/src/clicon_dbutil.c:336-374 | the pairs are read in order up to the first that cannot be |
| Lvec.Lvec2cvec | lib/src/clicon_dbutil.c:301-380 | the decoding, or nothing for an odd number of lvalues |
| DbDiff.DbdiffSingle | apps/config/config_dbdiff.c:99-179 | comparing the stored bytes adds an entry exactly when the vectors differ, of the kind that fits which side has the key |
| DbDiff.DbdiffVector | apps/config/config_dbdiff.c:189-253 | the quadratic comparison: entries for the first list in its order, then those only the second has |
| DbDiff.SlowIsDiff | apps/config/config_dbdiff.c:189-253 | those entries are, once each, the items of one side without partner and the pairs that differ |
| DbDiff.PartnerOf | apps/config/config_dbdiff.c:210-229 | the partner found is the one item with the same unique tuple |
| DbDiff.DiffUnique | apps/config/config_dbdiff.c:189-253 | what a list difference has to contain determines it up to order |
| Sorting.Qsort | apps/config/config_dbdiff.c:323-333 | a sorted permutation of its input, for any total preorder |
| FastDiff.SortCache | apps/config/config_dbdiff.c:315-333 | the cached unique values in strictly rising order |
| FastDiff.MergeIsDiff | apps/config/config_dbdiff.c:335-368 | merging two sorted caches yields exactly the entries of a list difference |
| FastDiff.MergeLoops | apps/config/config_dbdiff.c:335-368 | the merge loops add what the merge as a function of the two vectors says |
| FastDiff.DbdiffVector1 | apps/config/config_dbdiff.c:282-381 | the fast comparison adds the same multiset of entries as the quadratic one |
| DatabaseDiff.DbDiffAll | apps/config/config_dbdiff.c:403-456 | for every line of the specification exactly what is to be reported, once: for a line that stands for many keys the items without a namesake on the other side and the namesakes that differ, for any other line its key when it is on one side only or has two values |
| KeyPattern.AnyVectorExactly | lib/clicon/clicon_lvalue.h:57 | the test for [] tells exactly the lines that stand for other keys than themselves |
| DatabaseDiff.ListPart | apps/config/config_dbdiff.c:189-253 | a list difference reports exactly that for a line that stands for many keys |
| DatabaseDiff.SinglePart | apps/config/config_dbdiff.c:99-179 | the plain difference reports exactly that for any other line |
| DatabaseDiff.CountUnique | apps/config/config_dbdiff.c:428-437 | the count is one exactly when there is one unique variable, and then the name is its name |
| ApplyDiff.ListDiffApplies | apps/config/config_dbdiff.c:189-253 | applying a list difference to the first database yields the second if and only if no matched pair hides a name that only the second item has |
| ApplyDiff.AddedVariableIsMissed | apps/config/config_dbdiff.c:214-222 | a concrete difference that is missed: a variable added to an item |
| ApplyDiff.PlainDiffApplies | apps/config/config_dbdiff.c:99-179 | for a plain key the difference always carries the first value to the second, and touches no other key |
| ApplyDiff.DiffOnePerKey | apps/config/config_dbdiff.c:189-253 | a list difference has at most one entry for a unique tuple |
| KeyPattern.Greedy | lib/src/clicon_dbspec_key.c:449-500 | taking all digits of an index is the only way on when no digit follows it in the pattern |
| KeyPattern.Unambiguous | lib/src/clicon_dbspec_key.c:471-500 | two different lines of a specification never accept the same key |
| KeyPattern.MatchKeyIndex | lib/src/clicon_dbspec_key.c:449-466 | eats all the digits there are, and fails when there is none |
| SpecMatch.DbspecKeyMatch | lib/src/clicon_dbspec_key.c:471-509 | accepts exactly the keys made from the line by replacing every [] with a dot and digits |
| SpecMatch.Key2SpecKey | lib/src/clicon_dbspec_key.c:512-527 | the first line that accepts the key |
| SpecMatch.FirstMatchIsOnly | lib/src/clicon_dbspec_key.c:512-527 | a line is found exactly when it is in the specification and accepts the key |
| SpecMatch.KeyLookupIgnoresOrder | lib/src/clicon_dbspec_key.c:512-527 | the line found does not depend on the order of the specification |
| SpecMatch.PlainFinds | lib/src/clicon_dbutil.c:551-575 | the expression of a line of plain names finds exactly the keys of the line with any character in place of a dot |
| SpecMatch.RegexFindsKeys | lib/src/clicon_dbutil.c:551-575 | every key that a line of plain names accepts is found by the extended regular expression generated from it |
| SpecMatch.RegexIsExact | lib/src/clicon_dbutil.c:551-575 | it finds nothing else if and only if the line has no dot of its own, because dots are not escaped |
| SpecMatch.KeysFoundExactly | lib/src/clicon_dbutil.c:551-575 | a line without dots finds its keys if and only if no name has a sign of repetition, because those are not escaped either |
| SpecMatch.SignsFindNothing | lib/src/clicon_dbutil.c:551-575 | a line without dots and with such a sign finds none of its own keys |
| SpecMatch.SignsAfterDots | lib/src/clicon_dbutil.c:551-575 | nor does a line whose signs come after plain names and dots |
| SpecMatch.PlusIsMissed | lib/src/clicon_dbutil.c:551-575 | for example a+b does not find the key a+b |
| DbDep.ScanFindsLongest | apps/config/config_dbdep.c:424-465 | a scan that eats all digits finds the longest prefix in the language of the pattern, or that there is none |
| DbDep.DbdepMatchKey | apps/config/config_dbdep.c:424-465 | accepts exactly as Accepts says; for a starred pattern the matched part is the longest matching prefix |
| DbDep.IndexPatternIsExact | apps/config/config_dbdep.c:424-465 | a pattern that ends in [] accepts exactly the whole keys of its language |
| DbDep.ShortKeyAccepted | apps/config/config_dbdep.c:455-465 | a pattern that ends in a plain character also accepts a key one character short |
| CommitVec.DbdepCommitvec | apps/config/config_dbdep.c:521-627 | sorted by row; every entry pairs a registered dependency with a change that concerns it, every such change and dependency is covered, and no key pair or matched tree part occurs twice; it fails if and only if a tree dependency matches the first key of a change and not the second, with no earlier change of the same matched part |
| CommitVec.TreeSeen | apps/config/config_dbdep.c:556-567 | whether the matched part already has an entry of this tree dependency |
| CommitVec.SortKeeps | apps/config/config_dbdep.c:616-617 | sorting loses and doubles nothing |
| CommitTrace.RollbackIsMirror | apps/config/config_commit.c:459-492 | the rollback calls are the exact reverse of the calls made, inverted, if and only if it is not a deletion walk that failed after its first call |
| CommitTrace.DeletesFirst | apps/config/config_commit.c:500-586 | in orders 1 and 2 all deletes, by falling priority, come before all other calls, by rising priority; order 2 makes no CHANGE |
| CommitTrace.EveryEntryCommits | apps/config/config_commit.c:431-452 | every entry of the vector that commits gets its call, a CHANGE of order 2 a DELETE and an ADD |
| CommitTrace.PickMembers | apps/config/config_commit.c:500-586 | a walk makes exactly the calls of the entries it does not skip |
| CommitTrace.PickSorted | apps/config/config_commit.c:560-586 | a walk along a vector sorted by priority makes its calls in that order |
| CommitLog.OneClosing | apps/config/config_commit.c:663-678 | exactly one of the end and abort hooks runs, last, and it is the end hook just when the commit succeeds |
| CommitLog.NoEarlyCommit | apps/config/config_commit.c:414-452 | no commit callback comes before all validations and hooks of the opening have succeeded, and no undo before a failure |
| CommitLog.AllValidated | apps/config/config_commit.c:318-336 | every dependency that validates was asked and agreed before |
| CommitLog.MirrorRestores | apps/config/config_commit.c:459-492 | calls that succeeded followed by their mirror leave the plugins where they were, if each inverse undoes its call |
| CommitLog.RollbackRestores | apps/config/config_commit.c:592-652 | a commit rolled back other than from the deletion walk leaves the plugins as validation left them |
| CommitRestore.DeletionWalkNotRestored | apps/config/config_commit.c:526-556 | for every commit vector and every place after the first call at which the deletion walk fails there are plugins whose calls can all be undone and that the rollback does not restore |
| CommitRestore.RestoredExactly | apps/config/config_commit.c:430-652 | a commit that fails after k good calls always restores such plugins if and only if it did not fail inside a deletion walk after its first call |
| CommitRestore.DeletionsPlanned | apps/config/config_commit.c:526-556 | the difference of two databases has such a commit vector: two deletions |
| CommitLog.ReplayConcat | apps/config/config_commit.c:83-124 | the state of the plugins after a log is that after its parts one after the other |
| Commit.Backend.PluginCommitCallback | apps/config/config_commit.c:83-124 | one call of a plugin with the commit data given, noted with its result |
| Commit.Backend.PluginHooks | apps/config/config_plugin.c:384-447 | the hooks of one phase, noted |
| Commit.Backend.GenericValidate | apps/config/config_commit.c:126-262 | may fail, and adds at most values for names that were missing to keys of the candidate that changed; nothing else moves |
| Commit.Backend.FileCp | lib/src/clicon_file.c:284-315 | a copy, or a failure that can leave anything in the target |
| Commit.Backend.ValidateDb | apps/config/config_commit.c:307-340 | the validation callbacks in the order of the vector up to the first that refuses |
| Commit.Backend.CommitWhole | apps/config/config_commit.c:430-452 | order 0: the commit callbacks in the order of the vector up to the first that fails |
| Commit.Backend.UndoWhole | apps/config/config_commit.c:459-491 | order 0: the mirror of the calls before the failure |
| Commit.Backend.CommitRemovals | apps/config/config_commit.c:500-525 | orders 1 and 2: the deletions from the end of the vector up to the first that fails |
| Commit.Backend.ReissueRemovals | apps/config/config_commit.c:526-556 | after a failed deletion: the deletions made, in reverse, with source and target exchanged but still deletions |
| Commit.Backend.CommitInserts | apps/config/config_commit.c:560-586 | orders 1 and 2: the additions and changes up to the first that fails |
| Commit.Backend.UndoInserts | apps/config/config_commit.c:593-622 | the mirror of the additions and changes before the failure |
| Commit.Backend.UndoRemovals | apps/config/config_commit.c:623-650 | the mirror of all deletions |
| Commit.Backend.CommitAtOnce | apps/config/config_commit.c:430-494 | order 0 as a whole: log and files of success and of every failure |
| Commit.Backend.CommitInTwoWalks | apps/config/config_commit.c:495-653 | orders 1 and 2 as a whole: log and files of success and of every failure |
| Commit.Backend.Prepare | apps/config/config_commit.c:414-428 | the opening, or the opening up to the step that failed |
| Commit.Backend.Plan | apps/config/config_commit.c:389-412 | the sorted commit vector of the difference between running and candidate |
| Commit.Backend.CandidateCommit | apps/config/config_commit.c:373-678 | the exact log of every run, the return value, that running is unchanged on every failure before the copy into it, and that on success running and candidate hold exactly the candidate as it was validated: the one before with at most defaults added to changed keys |
| Commit.Backend.CandidateValidate | apps/config/config_commit.c:680-742 | the opening alone: on success no closing hook runs, on failure the abort hook does; running is never changed |
| CommitLaw.RunIsLawful | apps/config/config_commit.c:373-678 | the law of every run, in terms of the two databases: no call but for what they differ in and a dependency asked for, with the operation, keys and vectors that fit; in order of priority, no part of a tree twice; everything asked for is validated before a commit and told by one that goes well; and what was told is taken back, last first |
| CommitLaw.OpeningIsLawful | apps/config/config_commit.c:680-742 | the same for a validation |
| CommitLaw.EntryCarries | apps/config/config_dbdep.c:560-600 | a key only in candidate is told as target, one only in running as source, one in both as both, each with the vector of its side; of a tree the longest part that matches |
| CommitLaw.GoodRunAnnounces | apps/config/config_commit.c:430-586 | every dependency that commits hears of every change it asked for: ADD for what is new, DELETE for what is gone, CHANGE for what differs, in order 2 DELETE and later ADD |
| CommitLaw.RunOwed | apps/config/config_commit.c:304-652 | and of nothing else, in no run |
| CommitLaw.RunInOrder | apps/config/config_commit.c:430-586 | calls by rising priority, or deletions by falling and then the rest by rising priority; none twice |
| CommitLaw.RunIsStaged | apps/config/config_commit.c:373-678 | begin hooks, generic validation, validation calls, complete hooks, commit calls, copies and the closing hooks, in this order; after a failure nothing but the undoing and the abort hooks |
| CommitLaw.RunTakenBack | apps/config/config_commit.c:460-652 | a run that is rolled back repeats its good calls, last first, with source and target exchanged and ADD and DELETE exchanged; a deletion walk repeats the deletions |
| CommitSteps.DiffBracketless | apps/config/config_dbdiff.c:403-456 | the keys of a difference carry no brackets when those of the databases do not |
| ChunkPool.InitHead | lib/src/clicon_chunk.c:81-110 | the shape of a size class: chunks of a power of two, header included, that fill the block exactly, for every power-of-two page |
| ChunkPool.LiveApart | lib/src/clicon_chunk.c:155-165 | two chunks in use never overlap, and each lies within its block |
| ChunkPool.Tiled | lib/src/clicon_chunk.c:155-165 | every byte of a block belongs to one of its chunks, which is in exactly one of the free and the in-use list |
| ChunkPool.RefIsUse | lib/src/clicon_chunk.c:254-255 | a block counts exactly its chunks in use, at least one |
| ChunkPool.NewBlockOk | lib/src/clicon_chunk.c:123-169 | a new block adds its chunks to the free list and keeps the pool in order |
| ChunkPool.TakeOk | lib/src/clicon_chunk.c:249-255 | moving a free chunk to the in-use list keeps the pool in order and adds one new chunk |
| ChunkPool.PutBackOk | lib/src/clicon_chunk.c:480-484 | moving a chunk back keeps the pool in order while its block still counts it |
| ChunkPool.UnrefOk | lib/src/clicon_chunk.c:503-505 | dropping the count keeps the pool in order |
| ChunkPool.ReleaseOk | lib/src/clicon_chunk.c:174-209 | releasing a block that counts nothing finds all its chunks free and keeps the pool in order |
| ChunkPool.WithoutMembers | lib/src/clicon_chunk.c:194-202 | the loop over a block takes exactly its chunks from the free list |
| ChunkGroups.CountLaw | lib/src/clicon_chunk.c:311-362 | the chunks in use are the ungrouped ones, two for every grouped one and two for every group |
| ChunkGroups.AttachedOk | lib/src/clicon_chunk.c:351-360 | joining a chunk to a group by a new entry keeps the books in order |
| ChunkGroups.NewGroupOk | lib/src/clicon_chunk.c:326-341 | a new group with a new name keeps the books in order |
| ChunkGroups.DetachedOk | lib/src/clicon_chunk.c:486-493 | a chunk that leaves its group takes exactly its entry with it |
| ChunkGroups.DroppedOk | lib/src/clicon_chunk.c:495-500 | dropping an empty group keeps the books in order |
| ChunkGroups.BooksWithoutOk | lib/src/clicon_chunk.c:462-508 | freeing a chunk of a user keeps the books in order |
| ChunkGroups.OthersStay | lib/src/clicon_chunk.c:514-557 | freeing a group leaves every chunk, entry, header and name of another group |
| ChunkGroups.EmptiedIsWithout | lib/src/clicon_chunk.c:544-556 | a group emptied entry by entry and dropped is the books without that group |
| Chunk.Allocator.constructor | lib/src/clicon_chunk.c:43-65 | an allocator that is not initialised yet is valid and has no chunk in use |
| Chunk.Allocator.ChunkInitialize | lib/src/clicon_chunk.c:71-117 | all classes get their shape and nothing is in use |
| Chunk.Allocator.ChunkNewBlock | lib/src/clicon_chunk.c:123-169 | a block that overlaps no other, its chunks free |
| Chunk.Allocator.ChunkReleaseBlock | lib/src/clicon_chunk.c:174-209 | the block and its chunks are gone, the chunks in use are the same |
| Chunk.Allocator.SizeClass | lib/src/clicon_chunk.c:229-238 | the smallest class that is large enough, or that there is none |
| Chunk.Allocator.TakeFirst | lib/src/clicon_chunk.c:249-255 | the first free chunk of the class is in use afterwards and its block counts it |
| Chunk.Allocator.ChunkAlloc | lib/src/clicon_chunk.c:216-264 | a chunk that was not in use, of the smallest class that holds the request; nothing for an empty or too large one |
| Chunk.Allocator.Unchunk | lib/src/clicon_chunk.c:462-508 | frees the chunk, its entry and, with the last chunk, the group and its name; recursion ends because entries, headers and names are never grouped |
| Chunk.Allocator.FindGroup | lib/src/clicon_chunk.c:311-324 | the group of the name, if there is one |
| Chunk.Allocator.NewGroupFor | lib/src/clicon_chunk.c:326-341 | header and name of a new group, each in a chunk with room for it; a name that is too long leaves the header allocated |
| Chunk.Allocator.Join | lib/src/clicon_chunk.c:344-358 | the chunk joins the group by one new entry, in a chunk with room for it |
| Chunk.Allocator.Chunk | lib/src/clicon_chunk.c:269-376 | exactly when a request is served and what it adds to the books and to the chunks in use, with room for the entry, the group and its name; a refusal changes nothing, except that a name that is too long always leaks one chunk |
| Chunk.Allocator.Rechunk | lib/src/clicon_chunk.c:382-457 | what is handed back is of the smallest class that holds the request, and is the old chunk if and only if that is so already; else the old one is freed; exactly when it succeeds; unchanged when too large, freed for length 0, one chunk leaked when the name of a new group is too long |
| Chunk.Allocator.EmptyGroup | lib/src/clicon_chunk.c:544-549 | the loop frees the chunks and entries of the group and keeps the group |
| Chunk.Allocator.UnchunkGroup | lib/src/clicon_chunk.c:514-557 | frees exactly the chunks of the group, their entries, the name and the header |
| Queue.Insq | lib/clicon/clicon_queue.h:57-72 | the element is in front of the circle |
| Queue.Addq | lib/clicon/clicon_queue.h:40-52 | the element is at the end of the circle |
| Queue.Delq | lib/clicon/clicon_queue.h:74-85 | the circle without the element, and its head |
| Queue.NextInRing | lib/clicon/clicon_queue.h:87-90 | a walk comes back to the head after the last element and not before |
| Queue.CutLinks | lib/clicon/clicon_queue.h:78-85 | only the neighbours of the removed element get new neighbours |
| Hash.HashBucket | lib/src/clicon_hash.c:88-97 | the 32-bit sum of the characters, as signed chars, modulo the number of buckets |
| Hash.Table.Lookup | lib/src/clicon_hash.c:152-169 | the entry of the key, or nothing, exactly as the map says |
| Hash.Table.Value | lib/src/clicon_hash.c:174-186 | the value the map has for the key |
| Hash.Table.Add | lib/src/clicon_hash.c:199-251 | acts as a map update, whether the key is new or not, and hands back the element of the key, the old one of a known key |
| Hash.Table.Del | lib/src/clicon_hash.c:262-278 | acts as removal from the map, and tells whether the key was there |
| Hash.Table.Keys | lib/src/clicon_hash.c:280-306 | every key of the map exactly once |
| Hash.FindIn | lib/src/clicon_hash.c:158-166 | the walk round one bucket finds the key if it is there |
| Hash.Inserted | lib/src/clicon_hash.c:237-239 | a new entry in front of its bucket keeps the table in order |
| Hash.Removed | lib/src/clicon_hash.c:271-275 | taking an entry out keeps the table in order |
| Hash.BucketKeys | lib/src/clicon_hash.c:289-303 | the keys of one bucket are the keys of the map that hash to it |
| SpecList.List.TailAdd | lib/src/clicon_dbspec_key.c:152-216 | a new key is appended and indexed, a known one gets the missing variables; each key is there once, the index leads to its element and the tail is the last element |
| SpecList.AddMissingFinds | lib/src/clicon_dbspec_key.c:186-199 | a variable keeps its first description |
| SpecList.List.Append | lib/src/clicon_dbspec_key.c:206-212 | the new element is linked behind the tail and indexed |
| SpecList.List.MergeInto | lib/src/clicon_dbspec_key.c:183-204 | only the variables and the vector flag of the known element change |
| SpecList.List.FindKey | lib/src/clicon_dbspec_key.c:181-184 | the index finds the element of the key, and no key it does not find is in the list |
| Lock.LockProtects | apps/config/config_client.c:171-622 | from a successful lock until its release no other client obtains or clears the lock or changes the candidate by change, load, initdb, rm or copy, and it is free just after its release |
| Lock.HeldSince | apps/config/config_client.c:483-622 | the lock is held from the message that obtains it until one that releases it |
| Lock.LocksExclude | apps/config/config_client.c:483-573 | between successful locks of two clients the first was released |
| Lock.LockGranted | apps/config/config_client.c:483-572 | the lock is granted, and given back, exactly when it is asked for the candidate while that is free or the client's own |
| Lock.Admitted | apps/config/config_client.c:171-472 | a client that the lock does not keep out can make every change, load, creation, removal and copy |
| Lock.HolderAdmitted | apps/config/config_client.c:171-572 | from a lock to its release the holder can change, lock and unlock the candidate |
| Lock.ZeroLocksNothing | apps/config/config_lock.c:67-89 | a client with process id 0 is told that it holds the lock, but nobody does |
| Lock.Backend.DbLock | apps/config/config_lock.c:67-73 | the lock is set to the client |
| Lock.Backend.DbUnlock | apps/config/config_lock.c:78-85 | the lock is cleared |
| Lock.Backend.FromClientChange | apps/config/config_client.c:171-229 | refused when another client holds the candidate, else only the named database may change |
| Lock.Backend.FromClientLoad | apps/config/config_client.c:283-337 | the same, and refused when a database to be replaced does not exist |
| Lock.Backend.FromClientInitdb | apps/config/config_client.c:342-383 | refused, or the database exists afterwards with the contents it had |
| Lock.Backend.FromClientRm | apps/config/config_client.c:389-428 | refused, or the file is gone |
| Lock.Backend.FromClientCopy | apps/config/config_client.c:433-478 | refused, or the target has the contents of the source |
| Lock.Backend.FromClientLock | apps/config/config_client.c:483-526 | granted when the candidate is free or already held by the client |
| Lock.Backend.FromClientUnlock | apps/config/config_client.c:531-573 | frees the candidate for its holder and is refused to others |
| Lock.Backend.FromClientKill | apps/config/config_client.c:579-622 | the client is dropped and its lock cleared |
| Lock.Backend.Serve | apps/config/config_client.c:171-622 | any sequence of messages is a run of the protocol |
| Proto.ParseBody | lib/src/clicon_proto_encode.c:65-946 | decoding undoes encoding, for every message with terminated strings and numbers in range |
| Proto.BodyLaidOut | lib/src/clicon_proto_encode.c:65-946 | every field of a message is at its place: numbers in four bytes, the highest first, texts with their terminator, in the order of the source |
| Proto.Encode | lib/src/clicon_proto_encode.c:65-946 | the packet holds the encoding, with its length cut to 16 bits |
| Proto.Decode | lib/src/clicon_proto_encode.c:90-946 | the message in the packet, or nothing |
| Proto.EncodeCommit | lib/src/clicon_proto_encode.c:109-146 | snapshot, startup and the two database names in their places |
| Proto.EncodeChange | lib/src/clicon_proto_encode.c:218-263 | operation, length, database, key and the variables in their places |
| Proto.EncodeSave | lib/src/clicon_proto_encode.c:314-352 | the file name is written exactly when no snapshot is asked for |
| Proto.EncodeLoad | lib/src/clicon_proto_encode.c:388-420 | the signed replace flag and the two names in their places |
| Proto.EncodeCopy | lib/src/clicon_proto_encode.c:495-523 | the two names in their places |
| Proto.EncodeStr | lib/src/clicon_proto_encode.c:65-88 | one terminated string |
| Proto.EncodeWord | lib/src/clicon_proto_encode.c:591-616 | one number |
| Proto.EncodeSubscription | lib/src/clicon_proto_encode.c:750-791 | status, format, stream and filter in their places |
| Proto.EncodeNotify | lib/src/clicon_proto_encode.c:831-860 | level and event in their places |
| Proto.EncodeErr | lib/src/clicon_proto_encode.c:885-918 | the two codes and the reason in their places |
| Proto.ChangeBack | lib/src/clicon_proto_encode.c:265-312 | a change is read back with all its variables |
| Proto.SaveBack | lib/src/clicon_proto_encode.c:354-386 | a save is read back with its file name exactly when it has one |
| Proto.LoadBack | lib/src/clicon_proto_encode.c:422-454 | a load is read back, a negative flag included |
| Proto.CommitBack | lib/src/clicon_proto_encode.c:148-181 | a commit is read back |
| Proto.SubscriptionBack | lib/src/clicon_proto_encode.c:793-829 | a subscription is read back |
| Proto.ErrBack | lib/src/clicon_proto_encode.c:920-946 | an error is read back |
| Proto.Strncpy | lib/src/clicon_proto_encode.c:85-86 | the text, filled up with zeroes, and nothing outside the range |
| Wire.WholeOnWire | lib/src/clicon_proto.c:199-216 | a message is sent whole if and only if its length fits 16 bits |
| Wire.Delivered | lib/src/clicon_proto.c:236-286 | what is in front of a stream after a message that fits was sent is that message, however long the rest |
| Wire.Socket.AtomicRead | lib/src/clicon_proto.c:147-172 | all bytes asked for, however the reads were split or interrupted, or the end of the stream, or an error; an error is reported exactly for a call that failed other than by an interruption to be ignored or a lack of data |
| Wire.Socket.AtomicWrite | lib/src/clicon_proto.c:147-172 | all bytes are sent, or a beginning of them and an error, which is reported exactly for a call that failed for good |
| Wire.Socket.Send | lib/src/clicon_proto.c:199-216 | the bytes of the message are appended to the stream, unless a call failed for good |
| Wire.Socket.Receive | lib/src/clicon_proto.c:236-286 | a success without end of stream returns exactly the next op_len bytes; an end of stream inside the header counts as end of stream; an error has its cause: a failed call, a length below 4, or a body that was not read at once |
| Wire.Exchange | lib/src/clicon_proto.c:199-286 | a message that is sent, received and decoded is the same message |
| Wire.SendVariables | lib/src/clicon_dbutil.c:684-704 | the variables a client sends with a change are the variables the backend applies |
| Filter.SelectSiblings | apps/netconf/netconf_filter.c:103-183 | the tree is pruned in place to what the pure selection says, with its verdict |
| Filter.SelectChildren | apps/netconf/netconf_filter.c:154-176 | the loop with current and previous sibling leaves exactly what the selection leaves of each child |
| Filter.XmlFilter | apps/netconf/netconf_filter.c:185-193 | the filtered tree; the verdict on the top node is not used |
| Filter.SelectPrunes | apps/netconf/netconf_filter.c:103-183 | the selection only removes whole elements and keeps the order |
| Filter.SelectVerdict | apps/netconf/netconf_filter.c:103-150 | a node is refused if and only if the filter has children and an attribute of it has no value or an earlier namesake with another one, or a leaf of it has no namesake among the children or one that is a leaf with another text |
| Filter.SelectLeaves | apps/netconf/netconf_filter.c:151-176 | what is left of a node that is not refused, child by child |
| Filter.AttributesKeepAll | apps/netconf/netconf_filter.c:129-153 | a filter of valued attributes with different names keeps every node whole |
| Filter.StableExactly | apps/netconf/netconf_filter.c:103-183 | for every node a second run changes nothing and gives the same verdict, if and only if the filter is stable: wherever the selection gets, every content match looks at elements that are selected by a content match or by a filter that leaves all alone |
| Filter.SelectTwice | apps/netconf/netconf_filter.c:103-183 | with a stable filter a second run changes nothing and gives the same verdict |
| Filter.DistinctIsStable | apps/netconf/netconf_filter.c:103-183 | in particular when sibling filter elements have different names |
| Filter.UnstableDiffers | apps/netconf/netconf_filter.c:103-183 | for any other filter there is a node with which the second run does something else |
| Filter.Spoiled | apps/netconf/netconf_filter.c:139-176 | how: the element that a content match looks at is refused, or loses the siblings of its text |
| Filter.SameNameTwice | apps/netconf/netconf_filter.c:139-164 | for example with a content match after another filter element of its name the second run removes the node that the first one kept |
| Filter.FirstKept | apps/netconf/netconf_filter.c:141-150 | the first child with a safe name is the same after a run |
| Filter.CheckAttributes | apps/netconf/netconf_filter.c:129-138 | the attribute test as coded, against the filter itself |
| Filter.CheckContents | apps/netconf/netconf_filter.c:139-150 | every content match agrees with the first child of its name |
| Filter.Node.LeafText | apps/netconf/netconf_filter.c:80-95 | the text of an element that holds nothing else |
| Filter.Node.Find | lib/src/clicon_xml.c:408-417 | the first child of the name, of any kind |
| Filter.Prune | lib/src/clicon_xml.c:535-558 | the child goes and the others close up |

## Left out

- ListApart.AgreesExactly: expects that a unique name has one type in a specification, which is how the specification list is built; the entries of the scanned list are vectors, so a name that the byte form cannot carry is not considered here.
- SpecMatch.RegexFindsKeys: names with brackets of their own, backslashes, groups, alternatives, intervals or anchors are not modelled; of a name with signs of repetition that follows an index or is followed by a dot nothing is said.
- CommitLaw.RunIsLawful: that no call is made twice expects that no change belongs to two lines of the specification.
- CommitRestore.RestoredExactly: the two databases have different names; a database compared with itself has nothing to commit.
- CommitVec.DbdepCommitvec: a dependency has one pattern, as the registration functions give it, with a star at most at its end.
- DatabaseDiff.DbDiffAll: the items of a line are given with the database; `SpecMatch` says which keys the expression of a line finds.
- DbDep.DbdepMatchKey: the same patterns; stars elsewhere and keys with brackets are not modelled.
- FastDiff.DbdiffVector1: expects the items of one list with distinct unique values; a list inside a list can repeat them under different parents, and there the pairing is not modelled.
- Commit.Backend.GenericValidate: which of the missing names get a default and which values are refused depends on YANG and is left to a nondeterministic choice.
- Commit.Backend.PluginHooks: the hooks of all plugins in one phase are one step.
- Commit.Backend.CandidateCommit: callbacks and hooks act on the state of the plugins and do not themselves write the database files; the snapshot and startup files of the message that asks for a commit are not part of this model.
- Chunk.Allocator.Chunk: mapping never fails, and contents and diagnostics of chunks are not modelled; a request above the largest class whose block size fits an int is refused, which is what the overflowed class comes to.
- Chunk.Allocator.Rechunk: which bytes are copied is not modelled.
- Lock.LockProtects: commit and validate do not consult the lock and are not messages of this model; files are compared by name, as the code does, so another spelling of the path of the candidate is another file.
- Proto.Decode: a body that is too short or lacks a terminator is refused here; the source reads on past it.
- Wire.Socket.Receive: of a header with a length below 4 only the failure is modelled; chunk allocation does not fail otherwise.
- Filter.SelectSiblings: the namespaces of nodes are not modelled.
- Hash.Table.Add: values are values; their copies in memory and allocation failures are not modelled, nor is freeing the table.
- Errors of the key-value store, and the wrap-around of a list index at 2^31.
- Flags of variables other than unique, wildcard and unset; byte buffers that are not framed lvalues.
- The merge of leaf-lists (`cvec_merge2`), merge on plain keys, `db_lv_vec_replace`, and deletion of lists below a deleted item, which the source does not do.
- The plugin call, OK and reply messages of the protocol.
- CLI, NETCONF dispatch and edit-config, YANG and XML mapping, options, logging, signals, the event loop, snapshot rotation, Python bindings and examples: plumbing around the modelled cores.
