# Models of the protocols and algorithms in the Linux training repository

Most of the repository prints things. A few files hold a protocol, a retry loop, an in-place
algorithm or exact arithmetic. This project models those in Dafny and proves what they promise.

**The RCU book list** (`ksync/rcu_example/list_rcu_example.c`). `RcuModel` is a step system in
which any number of tasks run any mix of `print_book`, `borrow_book`, `return_book`, `add_book`
and `delete_book`. One step is one access to a node, one list primitive, one lock operation or one
RCU operation, and all interleavings are allowed. The heap maps addresses to nodes with a book, a
`next` link and a status: fresh, linked, retired or freed. A grace period remembers the sections
that were open when it started, and its callback or `synchronize_rcu` may finish when they have
all closed. `RcuInvariant` and `RcuSteps` hold the invariant, which orders nodes along `next` by
the time they were unlinked, and prove that every step keeps it. `RcuTheorems` draws the
conclusions for whole runs: no reader can reach a freed node, reads are linearizable, frees are
unique and come after a grace period, and nothing leaks. `RcuRefinement` shows that each step of
each run is one operation on a plain sequence of books, or none.

The updaters choose the node to replace before they take `books_lock`
(`list_rcu_example.c:99-111` and `:127-129`), so two of them can choose the same one. The contract
of `list_replace_rcu` then fails for the second. `RcuControl` proves that serialised updaters, with
any number of readers beside them, always meet that contract. `RcuContract` proves exactly when an
updater finds its node off the list, and gives a run of two overlapping borrowers in which it does.
A run of the step system ends where the contract would be broken. What holds beyond that point is
the control skeleton, `RcuSkeleton`: lock, sections and grace periods without the memory. There no
tasks wait in a circle, every reachable state can be brought to rest, and the work left is bounded
whatever the scheduler does. `RcuProjection` shows that the step system runs within the skeleton.
`RcuBound` adds the memory: no change of the list makes the way to its end longer for a search that
is already on it, so every operation ends within a bounded number of its own steps.

`RcuOperations` follows whole operations: the arguments they go by, what `add_book` and `delete_book`
do to the sequence of books, when `borrow_book` and `return_book` give up, and who frees the node.

With duplicate ids it matters which match an operation sees. `RcuMeets` follows the first match
ahead of a search through changes of the list. `RcuUpdate` proves exactly when a borrow or return
changes the first match: when no book with its id has been added in front since its search began.
`RcuFirst` proves exactly when a reader's answer is that of first-match lookup at an instant of its
section: unless the book came onto the list during the section by a replacement behind another
match, and stayed behind one. Both give a run in which it fails, and `RcuSerial` draws the
corollaries for serialised changes. `RcuLateRead` is about `is_borrowed_book`, which reads the flag
after leaving its section: it proves which operations must not overlap that read, and gives a run in
which it hits a freed node. `RcuRuns` builds these runs step by step.

**The book list, sequentially.** `BookList` is the doubly linked list as a class whose operations
change nodes in place, proved against a newest-first sequence with first-match lookup.

**The unsynchronised counter** (`ksync/counting`). `Counter` models `counter++` as a load and a
later store, interleaved with the create and join loops of `main`. It proves the exact set of
outcomes, the exact condition for losing no count, and the value as the length of a reads-from
chain.

**The restart library** (`mm/vm_usermode/mmap/fileio_mmap/restart_lib.h`). `RestartIo` runs the
loops over a scripted kernel that may transfer short counts, interrupt and fail. The calls keep to
the contracts of `read()`, `write()` and `select()` in section 3 of the System Interfaces volume of
POSIX.1-2017. `Timing` holds the deadline arithmetic and `waitfdtimed`, together with
`timeval_subtract` of `mm/vm_show_kernel_seg/convenient.h`.

**Smaller algorithms.** `Dec2Bin` and `HexDump` prove round trips for `dec2bin` and `hex_dump`.
`MemSort` proves the bubble sort of `mem_sequence.c` stable for tables of any length. `DemandPaging`
generalises the transitions drawn in `mm/demand-paging.html` to arbitrary access traces.

## Where the code and its comments differ

- `timeval_subtract` says that it returns 1 if the difference is negative and 0 otherwise. For
  operands of equal value that are not both normalised it can return 1. `Timing.TimevalSubtract`
  states the exact condition, on the operands, under which it does.
- The comment in `is_borrowed_book` asks for a read-side section around the read, but the code reads
  the flag after the section. `RcuLateRead.LateReadListed` and `RcuLateRead.LateReadHitsFreed` say
  what that costs.
- The comments in `borrow_book` and `return_book` ask for a copy, a replacement and a reclaim, and do
  not mention that updaters must not overlap. `RcuContract.StaleExactlyWhenTaken` and
  `RcuContract.OverlappingBorrowersBreakContract` say when an overlap breaks the replacement.

## Model

| member | source | states |
|---|---|---|
| RcuTheorems.ReachableIsNeverFreed | ksync/rcu_example/list_rcu_example.c:258-273 | In every state of every run, no node reached along next links from a node held inside a read-side section is freed or unpublished, even when the held node is already unlinked. |
| RcuTheorems.ChainIsLater | ksync/rcu_example/list_rcu_example.c:127-138 | Along any chain of next links from a node unlinked after some version, every node is still linked or was unlinked after that version. |
| RcuInvariant.NextIsLater | ksync/rcu_example/list_rcu_example.c:238-246 | A next link, live or frozen, never leads to a node unlinked earlier. |
| RcuTheorems.DeleterHoldsListed | ksync/rcu_example/list_rcu_example.c:225-239 | The node delete_book looks at or has found, without a section but under the lock, is on the list. |
| RcuTheorems.ReadsAreLinearizable | ksync/rcu_example/list_rcu_example.c:255-276 | Every answer of a section was right at one instant of that section: a shown or refused book was on the list with all those fields, and an id reported missing was absent from the whole list. |
| RcuTheorems.InstantOfSection | ksync/rcu_example/list_rcu_example.c:258-269 | Every order the list has had since a section began was the order at an instant at which that section was open. |
| RcuTheorems.ListedAtInstant | ksync/rcu_example/list_rcu_example.c:124-129 | Books that were on the list at some instant keep all their fields ever after. |
| RcuTheorems.FreesAreUnique | ksync/rcu_example/list_rcu_example.c:133-138 | In every reachable state a node about to be freed is retired, unfreed and claimed by that task alone or by a callback; a freed node has neither claimant. |
| RcuTheorems.FreedOnce | ksync/rcu_example/list_rcu_example.c:52-64 | No two steps of a run free the same node, by kfree or by callback. |
| RcuTheorems.FreedExactly | ksync/rcu_example/list_rcu_example.c:133-138 | A node is freed in a state if and only if some earlier step of the run has freed it. |
| RcuTheorems.UnlinkInstant | ksync/rcu_example/list_rcu_example.c:238-239 | Every unlinked node was unlinked by exactly the step its unlink time names. |
| RcuTheorems.FreedAfterGracePeriod | ksync/rcu_example/list_rcu_example.c:46-64 | A freed node was unlinked by an earlier step, and no section that was open right after it has stayed open until the free. |
| RcuTheorems.QuiescentFreesAll | ksync/rcu_example/list_rcu_example.c:118-138 | When all tasks are idle and no grace period is outstanding, the nodes not freed are exactly those on the list, for sync, async and failed allocations alike. |
| RcuSteps.RunInv | ksync/rcu_example/list_rcu_example.c:66-276 | The invariant holds in every state of every run. |
| RcuSteps.NextKeepsInv | ksync/rcu_example/list_rcu_example.c:66-276 | Every step keeps the invariant. |
| RcuSteps.InsertKeepsInv | ksync/rcu_example/list_rcu_example.c:83-85 | Publishing a node at the front keeps the invariant. |
| RcuSteps.ReplaceKeepsInv | ksync/rcu_example/list_rcu_example.c:127-129 | Publishing a copy in the place of a listed node, which keeps its own link, keeps the invariant. |
| RcuSteps.UnlinkKeepsInv | ksync/rcu_example/list_rcu_example.c:238-239 | Taking a node off the list, which keeps its own link, keeps the invariant. |
| RcuSteps.AllocCopyKeepsInv | ksync/rcu_example/list_rcu_example.c:118-125 | Allocating and filling the copy, or failing to, keeps the invariant. |
| RcuSteps.AddAllocKeepsInv | ksync/rcu_example/list_rcu_example.c:69-76 | Allocating and filling a new book keeps the invariant. |
| RcuSteps.CallRcuKeepsInv | ksync/rcu_example/list_rcu_example.c:133-134 | Handing a retired node to a callback keeps the invariant. |
| RcuSteps.KfreeKeepsInv | ksync/rcu_example/list_rcu_example.c:136-137 | Freeing after synchronize_rcu keeps the invariant: no open section can still reach the node. |
| RcuSteps.CallbackKeepsInv | ksync/rcu_example/list_rcu_example.c:52-64 | Freeing from a callback whose grace period is over keeps the invariant. |
| RcuSteps.ReplaceLeads | ksync/rcu_example/list_rcu_example.c:127-129 | A path of links that leads a reader to a match still leads to one after a replacement anywhere on the list. |
| RcuSteps.UnlinkLeads | ksync/rcu_example/list_rcu_example.c:238-239 | A path of links that leads a reader to its id still leads to that id after an unlink, as long as a book with the id stays on the list behind any unlinked match. |
| RcuSteps.UnlinkSearch | ksync/rcu_example/list_rcu_example.c:225-239 | After delete_book takes off the first match of its id, every reader still has its own id ahead of it, or the list right after the unlink is without that id. |
| RcuInvariant.VisitKnows | ksync/rcu_example/list_rcu_example.c:259-272 | One turn of a search keeps what the reader knows: its id lies ahead, or was absent at some instant of the section. |
| RcuInvariant.VisitKeepsInv | ksync/rcu_example/list_rcu_example.c:101-116 | One turn of a section's search keeps the invariant. |
| RcuInvariant.DelVisitKnows | ksync/rcu_example/list_rcu_example.c:226-227 | One turn of the locked search stays on the list with no match behind it. |
| RcuInvariant.BeginReadKeepsInv | ksync/rcu_example/list_rcu_example.c:99-99 | Opening a section keeps the invariant. |
| RcuInvariant.EndReadKeepsInv | ksync/rcu_example/list_rcu_example.c:131-131 | Closing a section, which releases the grace periods that wait for it, keeps the invariant. |
| RcuInvariant.SyncBeginKeepsInv | ksync/rcu_example/list_rcu_example.c:136-136 | Starting to wait for the open sections keeps the invariant. |
| RcuInvariant.SyncEndKeepsInv | ksync/rcu_example/list_rcu_example.c:136-136 | Returning from that wait keeps the invariant. |
| RcuRefinement.EveryStepRefines | ksync/rcu_example/list_rcu_example.c:66-253 | In every run each step is one abstract operation or none: add puts its book first, delete removes the first match of its id, borrow and return flip the flag of one book with their id and the opposite flag, all others change nothing. |
| RcuRefinement.FirstMatch | ksync/rcu_example/list_rcu_example.c:226-238 | The node found by the locked search is the first book with the id in the abstract sequence. |
| RcuOperations.BegunBy | ksync/rcu_example/list_rcu_example.c:66-276 | Every operation under way was begun by one step of its task, and goes by the arguments that step names. |
| RcuOperations.IdleMayBegin | ksync/rcu_example/list_rcu_example.c:278-305 | An idle task may begin any operation with any arguments. |
| RcuOperations.PublishedAsNamed | ksync/rcu_example/list_rcu_example.c:66-86 | The book that add_book publishes is the one it was called with, not borrowed, and goes in front of all others. |
| RcuOperations.MissIsRight | ksync/rcu_example/list_rcu_example.c:226-252 | If the locked search ends without a hit, no book on the list has the id. |
| RcuOperations.DeleteIsSequential | ksync/rcu_example/list_rcu_example.c:222-253 | From its spin_lock to its spin_unlock delete_book takes exactly the first book with its id off the list, or leaves the list as it is when there is none, and only then is it done at once. |
| RcuOperations.HolderKeepsList | ksync/rcu_example/list_rcu_example.c:225-239 | While a task holds the lock no step of another changes the list. |
| RcuOperations.HitMayCopy | ksync/rcu_example/list_rcu_example.c:196-203 | A borrow or return that has chosen a node can copy it to any unused address, with the flag asked for. |
| RcuOperations.NoMemoryFromAlloc | ksync/rcu_example/list_rcu_example.c:118-122 | A borrow or return gives up for want of memory only if an allocation in its own section has failed. |
| RcuOperations.GivesUpRightly | ksync/rcu_example/list_rcu_example.c:177-209 | A borrow or return that ends its section without a replacement and without a failed allocation could not have been applied at an instant of its search, if no book with its id was added meanwhile. |
| RcuOperations.ReclaimedAsAsked | ksync/rcu_example/list_rcu_example.c:211-216 | A node is freed by the callback if the operation that took it off was called with async, and by that operation's own kfree if not. |
| RcuControl.NothingKept | ksync/rcu_example/list_rcu_example.c:99-138 | A task waiting for a grace period holds neither lock nor section, and an idle task holds no lock, section, unpublished node or node to free. |
| RcuControl.GoesOnExactly | ksync/rcu_example/list_rcu_example.c:99-138 | In every reachable state a task in the middle of an operation has a step if and only if it is neither blocked nor about to call list_replace_rcu on a node off the list. |
| RcuControl.NeverStuck | ksync/rcu_example/list_rcu_example.c:177-216 | Unless everything is quiescent, an operation under way can take a step, or a task is about to call list_replace_rcu outside its contract. |
| RcuControl.SerialisedMeetsContract | ksync/rcu_example/list_rcu_example.c:278-305 | If at most one task at a time is updating, with any readers beside it, the node to be replaced is on the list whenever list_replace_rcu is reached. |
| RcuUpdate.UpdatesFirstExactly | ksync/rcu_example/list_rcu_example.c:99-129 | In every run a replacement by borrow or return is the sequential update, of the first book with the id and the opposite flag, if and only if no book with the id stands among those added in front since its search loaded the head. |
| RcuUpdate.UpdatesFirst | ksync/rcu_example/list_rcu_example.c:99-129 | So it is the sequential update whenever no book with its id is published between the load of the head and the replacement, whatever else other tasks do. |
| RcuUpdate.WrongUpdateByAdd | ksync/rcu_example/list_rcu_example.c:83-85 | A replacement that is not the sequential update has an add_book of the same id between its search and itself. |
| RcuUpdate.OverlapUpdatesSecond | ksync/rcu_example/list_rcu_example.c:83-129 | There is a run in which such an add_book makes a borrow flag the second of two books with the id. |
| RcuUpdate.SectionKnows | ksync/rcu_example/list_rcu_example.c:177-206 | In every run the target of a section, found or still ahead, was the first match behind the books added since its search began, and still is while it is on the list. |
| RcuUpdate.FrontWasAdded | ksync/rcu_example/list_rcu_example.c:83-85 | A book counted as added in front has the id of a book that one of the steps published. |
| RcuUpdate.BackWasListed | ksync/rcu_example/list_rcu_example.c:83-85 | A book behind those has the id of a book that was on the list at the start. |
| RcuUpdate.AnswersRight | ksync/rcu_example/list_rcu_example.c:255-276 | If no book with the id is published between the load of the head and the answer, the answer of a section is that of first-match lookup at an instant in between. |
| RcuUpdate.RefusalsRight | ksync/rcu_example/list_rcu_example.c:101-116 | And a borrow or return that gives up, other than for want of memory, could not have been applied at that instant. |
| RcuUpdate.WrongAnswerByAdd | ksync/rcu_example/list_rcu_example.c:83-129 | An answer that lookup gives at no instant of its section goes back to an add_book of the same id between the search and the replacement of some borrow or return. |
| RcuSerial.SerialUpdatesFirst | ksync/rcu_example/list_rcu_example.c:278-305 | Corollary: with changes serialised while an updater searches, its replacement is the sequential update. |
| RcuSerial.SerialRefusalsRight | ksync/rcu_example/list_rcu_example.c:101-116 | With changes serialised during its section, a borrow or return that gives up, other than for want of memory, cannot be applied to the list as it is at that moment. |
| RcuSerial.ReadsSeeFirst | ksync/rcu_example/list_rcu_example.c:278-305 | Corollary: with changes serialised, every answer of a section is that of first-match lookup at one instant of that section. |
| RcuContract.StaleExactlyWhenTaken | ksync/rcu_example/list_rcu_example.c:99-129 | An updater about to replace a node finds it off the list if and only if some step since its own section began has taken that node off. |
| RcuContract.OverlappingBorrowersBreakContract | ksync/rcu_example/list_rcu_example.c:88-142 | There is a run in which two borrowers of one book are inside their sections, the first has replaced the node, and the second holds the lock and is about to replace the same node, which is off the list. |
| RcuSkeleton.NoWaitCycle | ksync/rcu_example/list_rcu_example.c:225-250 | For any mix of operations, in no reachable state do tasks wait for each other in a circle. |
| RcuSkeleton.WaiterHoldsNothing | ksync/rcu_example/list_rcu_example.c:131-138 | A task before, in or after its wait for a grace period, or at rest, holds neither the lock nor a section. |
| RcuSkeleton.SomeoneUnblocked | ksync/rcu_example/list_rcu_example.c:99-138 | From any task under way a chain of waits, each task waiting for the next, leads to one that is under way and not blocked. |
| RcuSkeleton.NeverStuck | ksync/rcu_example/list_rcu_example.c:99-138 | Unless everything is at rest, some operation under way can take a step that is not just one more turn of a search. |
| RcuSkeleton.StepComesNearer | ksync/rcu_example/list_rcu_example.c:99-142 | Every step of an operation under way, except a further turn of a search, lowers the work left. |
| RcuSkeleton.BoundedWork | ksync/rcu_example/list_rcu_example.c:99-142 | In every run that begins nothing new, under any scheduling, at most as many steps as the work left at its start are anything but turns of searches. |
| RcuSkeleton.ReachableFinishes | ksync/rcu_example/list_rcu_example.c:222-253 | From every reachable state a continuation that begins nothing new brings all operations and callbacks to their end. |
| RcuSkeleton.RunInv | ksync/rcu_example/list_rcu_example.c:225-250 | In every run the lock has exactly the holder that its tasks say, grace periods wait only for open sections, and no two tasks wait for one grace period. |
| RcuBound.StepEnds | ksync/rcu_example/list_rcu_example.c:127-129 | No step of any task makes the way along the links from a published node to the end of the list longer. |
| RcuBound.EndsReplaced | ksync/rcu_example/list_rcu_example.c:128-128 | A replacement leaves that way as long as it was, for readers on live and on frozen links. |
| RcuBound.EndsUnlinked | ksync/rcu_example/list_rcu_example.c:238-238 | A deletion leaves that way as long as it was or shorter. |
| RcuBound.SearchBounded | ksync/rcu_example/list_rcu_example.c:259-272 | Whatever the updaters do, a search still under way has visited at most as many nodes as were on the list when it loaded the head. |
| RcuBound.OwnStepsBounded | ksync/rcu_example/list_rcu_example.c:88-142 | Under any scheduling a task takes no more steps to the end of its operation than its budget, which no other task raises. |
| RcuBound.OperationBounded | ksync/rcu_example/list_rcu_example.c:88-253 | From loading the head an operation takes at most nine steps of its own and one for each node then on the list. |
| RcuFirst.ReadsSeeFirstExactly | ksync/rcu_example/list_rcu_example.c:255-276 | In every run the book a section answers with, down to the node and all fields, is that of first-match lookup at some instant of the section if and only if it did not come onto the list during the section behind another book with the id, to stay behind one ever since. |
| RcuFirst.MissesAreRight | ksync/rcu_example/list_rcu_example.c:273-275 | In every run an id reported missing is missing for lookup at some instant of the section. |
| RcuFirst.SpoiledByReplace | ksync/rcu_example/list_rcu_example.c:127-129 | An answer that lookup gives at no instant is a copy that some borrow or return put on the list during the section by a replacement that is not the sequential update. |
| RcuFirst.RunReaders | ksync/rcu_example/list_rcu_example.c:258-273 | In every run the first match ahead of a search was the first on the whole list at some instant of the section, or came onto it behind another match; or none is ahead and the id was absent at an instant. |
| RcuFirst.RunEntersOnce | ksync/rcu_example/list_rcu_example.c:83-85 | In every run a node is on the list for one interval only. |
| RcuMeets.MeetsReplaced | ksync/rcu_example/list_rcu_example.c:127-129 | After a replacement a search meets the same first match as before, or the copy in its place. |
| RcuMeets.MeetsUnlinked | ksync/rcu_example/list_rcu_example.c:238-239 | After a deletion a search meets the same first match as before or, if that one has left its way, the next one on the list. |
| RcuFirst.LookupMeansFirst | ksync/rcu_example/list_rcu_example.c:258-269 | A book that lookup gives at an instant of a section was the first with its id in an order since the section began. |
| RcuFirst.OverlapShowsSecond | ksync/rcu_example/list_rcu_example.c:83-129 | There is a run of overlapping changes in which print_book shows a book that lookup gives at no instant of the section. |
| RcuLateRead.LateReadListed | ksync/rcu_example/list_rcu_example.c:153-158 | The node that is_borrowed_book has found is still on the list when it reads the flag after its section if and only if no borrow, return or delete has taken it off since the section began; then the read gives the right flag from memory that is not freed. |
| RcuLateRead.LateReadUndisturbed | ksync/rcu_example/list_rcu_example.c:153-158 | So the read is safe and right if no borrow, return or delete of the same id changes the list from the start of the section to the read. |
| RcuLateRead.LateReadExactly | ksync/rcu_example/list_rcu_example.c:153-158 | The node has been freed at the read if and only if a kfree or callback for it has come since the section ended, and then it is off the list. |
| RcuLateRead.LateReadHitsFreed | ksync/rcu_example/list_rcu_example.c:153-158 | There is a run in which that read hits a freed node. |
| RcuProjection.StepProjects | ksync/rcu_example/list_rcu_example.c:66-276 | Every step of the list with its memory is a move of the control skeleton. |
| RcuProjection.RunProjects | ksync/rcu_example/list_rcu_example.c:66-276 | Every run of the list with its memory is a run of the control skeleton. |
| BookList.First | ksync/rcu_example/list_rcu_example.c:101-111 | The position of the first book with the id, or the length when there is none. |
| BookList.UpdateUndone | ksync/rcu_example/list_rcu_example.c:88-220 | A successful borrow enables the return, which restores the sequence exactly, and the other way round; the same call again would fail. |
| BookList.UpdatedAt | ksync/rcu_example/list_rcu_example.c:124-129 | Flipping the flag of one book with the id is the sequential update if and only if that book is the first with the id. |
| BookList.AddUndone | ksync/rcu_example/list_rcu_example.c:66-253 | Adding and then deleting the same id restores the sequence, with or without duplicates of the id. |
| BookList.OthersUntouched | ksync/rcu_example/list_rcu_example.c:88-253 | Borrow, return and delete of one id leave what is found for every other id as it was. |
| BookList.BorrowThenReturn | ksync/rcu_example/list_rcu_example.c:288-295 | On the linked list, borrow then return restores the contents, with a different node in that place and the same nodes elsewhere. |
| BookList.Field | ksync/rcu_example/list_rcu_example.c:74-75 | What strncpy leaves of a string is the whole string or its first 64 characters. |
| BookList.Books.AddBook | ksync/rcu_example/list_rcu_example.c:66-86 | The new book, not borrowed, goes in front on a fresh node, before the same nodes; without memory nothing changes. |
| BookList.Books.UpdateBook | ksync/rcu_example/list_rcu_example.c:88-142 | Returns 0 exactly when the first match has the opposite flag and memory is at hand; then that book alone is replaced by a changed copy on a fresh node and the old node is freed or left pending; otherwise nothing changes. |
| BookList.Books.CopyInPlace | ksync/rcu_example/list_rcu_example.c:196-207 | The copy takes exactly the place of the old node, with all fields but the flag unchanged. |
| BookList.Books.DeleteBook | ksync/rcu_example/list_rcu_example.c:222-253 | The first match alone leaves the list and is freed or left pending; without a match nothing changes. |
| BookList.Books.IsBorrowedBook | ksync/rcu_example/list_rcu_example.c:144-164 | -1 exactly when no book has the id, otherwise the flag of the first match. |
| BookList.Books.PrintBook | ksync/rcu_example/list_rcu_example.c:255-276 | Nothing is shown exactly when no book has the id, otherwise the first match. |
| BookList.Books.Find | ksync/rcu_example/list_rcu_example.c:179-189 | The traversal stops at the node of the first match or at the end. |
| BookList.Books.ListAddRcu | ksync/rcu_example/list_rcu_example.c:84-84 | The doubly linked list gains the node in front and stays well linked. |
| BookList.Books.ListReplaceRcu | ksync/rcu_example/list_rcu_example.c:206-206 | The new node stands where the old one stood, and the list stays well linked. |
| BookList.Books.ListDelRcu | ksync/rcu_example/list_rcu_example.c:238-238 | The node is gone from the list, which stays well linked. |
| BookList.Books.Reclaim | ksync/rcu_example/list_rcu_example.c:211-216 | The node is left for a callback when async, and freed otherwise. |
| BookList.Books.RunCallbacks | ksync/rcu_example/list_rcu_example.c:52-64 | All pending nodes are freed and the split of allocated nodes into listed, pending and freed is kept. |
| Counter.LegalExactly | ksync/counting/counting_mt_nolocks_5.1.c:89-113 | A trace is a run if and only if main creates n threads in turn, each thread loads once after its creation and stores once after its load, and main joins them in order, each after its store, when all are created. |
| Counter.CounterBounds | ksync/counting/counting_mt_nolocks_5.1.c:32-59 | After any interleaving the counter and all loaded values are at most the number of stores so far, and the counter is positive after the first store. |
| Counter.PrintedBounds | ksync/counting/counting_mt_nolocks_5.1.c:89-116 | The value printed after all joins is in 1..n. |
| Counter.EveryOutcomePossible | ksync/counting/counting_mt_nolocks_5.1.c:39-39 | For every n, every k in 1..n is printed by some run. |
| Counter.LosslessSoFar | ksync/counting/counting_mt_nolocks_5.1.c:53-59 | At every instant the counter equals the number of stores if and only if no store has fallen between the load and the store of another thread. |
| Counter.StoreInsideHasLoad | ksync/counting/counting_mt_nolocks_5.1.c:39-39 | If a store falls between another thread's load and store, so does some load. |
| Counter.LoadInsideHasStore | ksync/counting/counting_mt_nolocks_5.1.c:39-39 | In a complete run, if a load falls between another thread's load and store, so does some store. |
| Counter.LosslessExactly | ksync/counting/counting_mt_nolocks_5.1.c:53-116 | The run prints n if and only if no load falls between another thread's load and store. |
| Counter.CounterIsChain | ksync/counting/counting_mt_nolocks_5.1.c:32-51 | At every instant the counter is the length of the reads-from chain that ends at the last store. |
| Counter.CountAlone | ksync/counting/counting_singlethrd_5.1.c:17-37 | The single-threaded loop counts to its bound, modulo 2^64. |
| RestartIo.RRead | mm/vm_usermode/mmap/fileio_mmap/restart_lib.h:85-90 | Uses up exactly the leading interruptions and one more call, and returns what that call returned: the next n bytes of the stream, as many as it granted, 0 only at its end or for size 0, or -1 with its error and nothing consumed. |
| RestartIo.RWrite | mm/vm_usermode/mmap/fileio_mmap/restart_lib.h:107-125 | On success the buffer has come out once and in order; after a hard error, whose errno it gives, a strict prefix of it. |
| RestartIo.ReadBlock | mm/vm_usermode/mmap/fileio_mmap/restart_lib.h:153-176 | Returns size with exactly the next size bytes, 0 at the end of the stream, or -1 with fewer than size bytes taken, by EINVAL exactly for a partial block. |
| RestartIo.ReadLine | mm/vm_usermode/mmap/fileio_mmap/restart_lib.h:178-201 | Without hard errors the result is that of LineResult; n > 0 means the first newline is at n-1, exactly n bytes were consumed, and a NUL follows them in the buffer. |
| RestartIo.LineLength | mm/vm_usermode/mmap/fileio_mmap/restart_lib.h:194-197 | The position after the first newline, or 0 when there is none. |
| RestartIo.ReadLines | mm/vm_usermode/mmap/fileio_mmap/restart_lib.h:178-201 | Over calls of readline up to the first without a line, for every script: the lines and what was left before the last call concatenate to the stream, they are the first lines of the stream, and without hard errors all of them. |
| RestartIo.LinesAreTheStream | mm/vm_usermode/mmap/fileio_mmap/restart_lib.h:178-201 | The lines of a stream, as the results of readline define them, concatenate to a prefix of it, behind which no line that fits begins. |
| RestartIo.ReadWrite | mm/vm_usermode/mmap/fileio_mmap/restart_lib.h:213-225 | Moves in order the r bytes that the first call not interrupted grants, 0 only at the end, or fails by one read error with nothing moved or one write error with less out than in. |
| RestartIo.CopyStopsAtWrite | mm/vm_usermode/mmap/fileio_mmap/restart_lib.h:143-151 | A write error leaves total <= bytes out < total + BLKSIZE, all a prefix of the source. |
| RestartIo.CopyStep | mm/vm_usermode/mmap/fileio_mmap/restart_lib.h:148-149 | One turn of the copy loop extends the copied prefix or ends with the final result. |
| RestartIo.CopyFile | mm/vm_usermode/mmap/fileio_mmap/restart_lib.h:143-151 | For every pattern of short counts, interruptions and errors: the output is a prefix of the bytes consumed; at the end of the file it is the whole source; after a read error the total equals the output; after a write error total <= output < total + BLKSIZE. |
| RestartIo.ReadWriteBlock | mm/vm_usermode/mmap/fileio_mmap/restart_lib.h:227-235 | One exact block goes through without errors, or 0 at the end; -1 either by the read, with EINVAL for a partial block or one read error and nothing written, or by one write error, with the block taken and a strict prefix written. |
| Timing.TimevalSubtract | mm/vm_show_kernel_seg/convenient.h:247-269 | The difference is exact, y keeps its value, microseconds are in 0..1000000, and the sign is right exactly unless SignMisreported holds of the operands. |
| Timing.SignOnNormalOperands | mm/vm_show_kernel_seg/convenient.h:243-245 | Normalised operands never have their sign misreported; a concrete pair of others has. |
| Timing.GetTimeout | mm/vm_usermode/mmap/fileio_mmap/restart_lib.h:33-52 | The timeout is end minus now, normalised exactly when the microseconds are at most one carry or borrow apart, and 0 is returned exactly when TimeLeft holds: for such operands, when now is before end. |
| Timing.TimeoutAndDifference | mm/vm_show_kernel_seg/convenient.h:247-269 | On normalised times gettimeout and timeval_subtract give the same seconds and microseconds, and gettimeout fails exactly when the difference is negative or zero. |
| Timing.AddToCurrentTime | mm/vm_usermode/mmap/fileio_mmap/restart_lib.h:129-141 | For seconds >= 0 the deadline is normalised and within half a microsecond of now + seconds; for others it is within the bounds that rounding upwards gives. |
| Timing.Attempt | mm/vm_usermode/mmap/fileio_mmap/restart_lib.h:249-254 | If the clock reading leaves time, select() is called once, then and with exactly the time left; otherwise not at all. |
| Timing.Round | mm/vm_usermode/mmap/fileio_mmap/restart_lib.h:251-257 | A retry after n interrupted calls reads the clock once and makes the next call exactly when time is left. |
| Timing.WaitFdTimed | mm/vm_usermode/mmap/fileio_mmap/restart_lib.h:237-265 | For a valid descriptor every interruption is retried while time is left, each call gets end minus the clock at the call, positive and normalised for a deadline that is, and the result is that of the last reply or ETIME with no time left; the loop ends. |
| Timing.OutcomeUnique | mm/vm_usermode/mmap/fileio_mmap/restart_lib.h:251-264 | Clock, replies and deadline determine the number of calls, the result and errno. |
| DemandPaging.Mapping.constructor | mm/demand-paging.html:225-233 | A blank mapping has untouched pages, free frames and zero counters. |
| DemandPaging.Mapping.Touch | mm/demand-paging.html:261-270 | Any allowed access keeps the invariant, in which page states and all counters are those of the trace, and states the whole new table of pages, frames and zero-page users; a frame is taken exactly when the page needs one. |
| DemandPaging.Mapping.FramesInUse | mm/demand-paging.html:261-264 | After any trace a frame is in use if and only if some page has it, and the resident memory is PAGE_KB times the frames in use. |
| DemandPaging.Mapping.ReadFault | mm/demand-paging.html:315-332 | A first read of an anonymous page joins the zero page: one minor fault, no memory. |
| DemandPaging.Mapping.WriteFault | mm/demand-paging.html:342-346 | A write without a private frame takes one, leaves the zero page, and costs one minor fault and one page. |
| DemandPaging.Mapping.FileFault | mm/demand-paging.html:366-369 | A first read of a file page takes a frame from disk: one major fault and one page. |
| DemandPaging.Mapping.Hit | mm/demand-paging.html:261-270 | An access the page table allows costs nothing. |
| DemandPaging.ReadCounts | mm/demand-paging.html:315-332 | What one more read adds to the faults and the memory that a trace costs. |
| DemandPaging.WriteCounts | mm/demand-paging.html:342-346 | What one more write adds to the faults and the memory that a trace costs. |
| DemandPaging.UpgradedMore | mm/demand-paging.html:348-352 | A write adds a page to those first read and later written exactly when the page was touched and not yet written. |
| DemandPaging.TouchedMeans | mm/demand-paging.html:283-286 | The touched and written pages are those that some access of the trace names. |
| DemandPaging.ReadingFirstCostsDouble | mm/demand-paging.html:356-362 | Any trace that reads each page before writing it costs exactly twice the faults of any write-only trace of the same pages, at equal resident memory. |
| DemandPaging.ReadAllThenWriteAll | mm/demand-paging.html:356-362 | Reading n pages and then writing them costs 2n faults, writing alone n, with n pages resident either way. |
| HexDump.Dump | mm/vm_usermode/mmap/mmap_simple/mmap_simple.c:30-87 | Emits ceil(size/16) lines. The k-th shows, column by column and from the data alone, a plus sign, offset + 16k in six characters, each of its bytes in hexadecimal and as itself or as a dot if it is not in 32..126, blanks elsewhere, and a newline. |
| HexDump.LineShows | mm/vm_usermode/mmap/mmap_simple/mmap_simple.c:77-82 | The line of a label and up to sixteen bytes shows them in all its columns. |
| HexDump.StartLine | mm/vm_usermode/mmap/mmap_simple/mmap_simple.c:51-64 | The buffer holds the empty line with this label. |
| HexDump.PutByte | mm/vm_usermode/mmap/mmap_simple/mmap_simple.c:77-82 | The buffer holds the line with one more byte in both columns and nothing else changed. |
| HexDump.Renew | mm/vm_usermode/mmap/mmap_simple/mmap_simple.c:67-75 | The full line is printed and the buffer holds the next empty one. |
| HexDump.Finish | mm/vm_usermode/mmap/mmap_simple/mmap_simple.c:85-86 | The last line, full or partial, is printed. |
| HexDump.ParseLine | mm/vm_usermode/mmap/mmap_simple/mmap_simple.c:77-78 | Reading the hex columns of a line gives its bytes, full or partial. |
| HexDump.LabelRoundTrip | mm/vm_usermode/mmap/mmap_simple/mmap_simple.c:53-53 | Reading a label gives back its number. |
| HexDump.RoundTrip | mm/vm_usermode/mmap/mmap_simple/mmap_simple.c:66-86 | Parsing all lines of a dump in order gives back exactly the data, and the labels are offset + 16k. |
| Dec2Bin.Convert | mm/vm_show_kernel_seg/convenient.h:281-333 | The array starts with '-' for a negative number and a space otherwise, at most 63 binary digits without a leading zero whose value is the magnitude, and NUL; later cells are untouched and the stray value read does not show. |
| Dec2Bin.SpellingUnique | mm/vm_show_kernel_seg/convenient.h:323-332 | Only one text meets that description of a number. |
| Dec2Bin.SpellBackwards | mm/vm_show_kernel_seg/convenient.h:306-321 | The first loop leaves the digits in temp in reverse, in at most 63 cells. |
| Dec2Bin.CopyReversed | mm/vm_show_kernel_seg/convenient.h:328-332 | The second loop writes the reversal and a NUL, whatever the read before the start of temp finds. |
| Dec2Bin.BitsValue | mm/vm_show_kernel_seg/convenient.h:306-321 | The value of the digits of n is n. |
| Dec2Bin.BitsMinimal | mm/vm_show_kernel_seg/convenient.h:306-321 | All digits are 0 or 1 and there is no leading zero, except that 0 is "0". |
| Dec2Bin.BitsLength | mm/vm_show_kernel_seg/convenient.h:297-297 | A number below 2^k has at most k digits. |
| Dec2Bin.RoundTrip | mm/vm_show_kernel_seg/convenient.h:281-333 | Parsing the spelling of any integer, where any other sign or a leading zero is an error, gives it back. |
| MemSort.SortTable | mm/vm_usermode/mem_sequence.c:101-106 | The table ends in descending pointer order as a permutation of the original pairs, with equal pointers in their original order. |
| MemSort.Bubble | mm/vm_usermode/mem_sequence.c:103-106 | One pass puts the least remaining pointer in its final place and keeps a stable rearrangement. |
| MemSort.MemXchg | mm/vm_usermode/mem_sequence.c:50-63 | Both entries change places and nothing else changes. |
| MemSort.SwapArranged | mm/vm_usermode/mem_sequence.c:104-106 | Swapping neighbours in ascending order keeps a stable rearrangement. |
| MemSort.SortIsUnique | mm/vm_usermode/mem_sequence.c:101-106 | A table has only one stable descending arrangement. |

## Left out

- The list primitives, the spinlock and RCU inside `RcuModel` are taken by contract; weak memory, preemption and signal delivery are not modelled.
- Node addresses are never reused in `RcuModel`, so that an access to a freed node would show; back links appear in `BookList` only, where `list_del_rcu` does not poison them.
- What the memory looks like after `list_replace_rcu` is called outside its contract; beyond that point only the control skeleton makes claims.
- `is_borrowed_book` has no steps of its own in `RcuModel`: its section runs like that of `print_book`, and `RcuLateRead` speaks of the read after it.
- The `borrow` field is a boolean, since only 0 and 1 are ever stored in it.
- RcuControl.NeverStuck: allows for a task about to call list_replace_rcu outside its contract, because the step system has no step for that call; RcuSkeleton.NeverStuck has no such case.
- RcuRefinement.EveryStepRefines: does not say which match a borrow or return changes; RcuUpdate.UpdatesFirstExactly says exactly when it is the first.
- RcuSkeleton.BoundedWork: does not bound the turns of a search, since the skeleton has no list; RcuBound.SearchBounded does.
- Counter.CounterBounds: the counter is a natural number, since main admits at most 127000 threads; the exit on a failed pthread_create and failed joins are not modelled.
- RestartIo.CopyFile: the total is unbounded, so the source is assumed to fit the int that holds it; the end of the stream is taken to persist.
- Scripts of the kernel in `RestartIo` are finite and followed by full transfers, which is how finitely many calls without progress are expressed.
- Timing.TimevalSubtract: does not model the narrowing of the carry to int, and takes distinct arguments.
- Timing.AddToCurrentTime: doubles are reals, so their own rounding is not modelled.
- Timing.WaitFdTimed: the loop ends because each interruption is taken to advance the clock; a deadline whose microseconds are outside 0..1999999 gets no claim of a positive timeout.
- Dec2Bin.Convert: LONG_MIN is excluded, because its negation overflows; what lies before the start of temp is a parameter.
- HexDump.Dump: labels are limited to those that fit six characters; the ruler and the caption are not modelled.
- DemandPaging.Mapping.Touch: writes to file-backed pages are excluded, since that mapping is read-only; the frame to take is a parameter, and a free one is assumed to exist.
- Display strings, permissions, the size of the mapping and all rendering in `mm/demand-paging.html`.
- `readtimed`, `r_close`, `r_dup2`, `r_open2`, `r_open3`, `r_wait` and `r_waitpid`: single retry loops or compositions that would only add easy members.
- `list/list.c`, the printing kernel modules, the memory demos, shell scripts and build files: thin use of kernel interfaces without state of their own to reason about.
