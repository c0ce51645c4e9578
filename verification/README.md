# Verification of the omniNotify core data structures

A Dafny model of the in-memory structures an omniNotify channel is built on, and proofs of what they
keep over whole runs. `dafny verify dfyconfig.toml` checks all of it.

- **Linear hash table** (`LinearHash`, `LinearHashLaws`, `LinearHashRuns`, `HashTable`,
  `MapTable`): Litwin's linear hashing as functions on values, proved to refine a finite map; the
  class with its linked chains relinked in place, proved to compute those functions.
- **Self-adjusting circular list** (`CircularList`, `SafeList`): one place in the list behind the
  index and the end-marker flag, and what the iterator promises over any interleaving.
- **Deferred-disposal locks** (`Oplock`, `OplockEntry`, `OplockGuards`, `OplockSteps`, `OplockLaws`,
  `OplockRuns`, `OplockPending`, `OplockProgress`, `OplockScopes`, `OplockRefinement`): the entry and its
  primitives, the lock guards as interleaved steps of any number of users and what each step does, an
  invariant of every run and what follows from it, and that all guards can always be closed again. The
  entry, the free list and the guards are also given as classes, with contracts in their fields, and
  `OplockRefinement` proves that they run the steps; a guard that acquires the mutex does so in two parts,
  since others may run in between.
- **Ring list** (`RingList`): a deque in a ring of slots with removal at a cursor.
- **Bitmap and event types** (`Bitmap`, `EventType`, `SubscriptionLaws`, `Subscription`): the packed
  bitmap as a set, dominance and normal forms, subscription deltas as they are computed with bitmaps
  and in place.
- **Type map** (`TypeMapLaws`, `TypeMap`): which filters are registered under which event types, what
  an update announces to the suppliers, and which filters a lookup finds for an event.
- **Name index** (`Strings`, `NameIndex`): the property index of a structured event, on the hash table.
- **Event-type lists** (`EtypeParser`): the parser that cuts a buffer in place inverts the printer.
- `BitAnd`, `Sequences` and `Runs` hold the arithmetic of masks and the few notions all modules share.

Each imperative method is proved against a function of the same name on values, and the laws are
proved about that function; where the class keeps linked nodes, ghost sequences tie the two.

## Where code and documentation differ

The model follows the code.

- `include/RDIOplocks.h:58-60` says that the fall of `_inuse` to zero disposes a disposed entry. In
  `lib/RDIOplocks.cc` it does not: disposal happens in `free_entry` when the entry is out of use at that
  moment, and otherwise when `alloc_entry` next comes to the entry. `OplockRuns.DisposalExactly` says
  exactly when, `OplockRuns.DisposalLeftBehind` is a run in which the object is left undisposed.
- `include/RDIOplocks.h:56-57` says that a fall from 2 to 1 broadcasts `_inuseone`. The end of a wait
  decrements without it (`OplockRuns.BroadcastExactly`).
- `include/RDIOplocks.h:53-54` wants no bump after disposal; a conditional bump of a lock that is held
  does one (`OplockRuns.BumpsOnceDisposed`).
- `alloc_entry` expects a due entry to stay due (`lib/RDIOplocks.cc:381-387`). It does exactly if no user of
  the owner has the lock released by a TempRelease without a bump, once nobody holds it
  (`OplockPending.DueStaysExactly`).
- `include/RDISafeList.h:62-64` says that the recommended loop leaves the iterator where it was. Started
  between two rounds it does not: the end marker is then still to come (`SafeList.List.Scan`).
- An element that is removed and inserted again within one pass is returned twice in it
  (`CircularList.ReinsertedTwice`), so the once-per-pass law speaks of elements not removed in it.
- `RDI_Hash::clear` makes every allocated bucket an initial one without counting splits, so the growth
  law is about calls other than clear; `LinearHashRuns.ApplySlack` gives the exact condition for clear.
- `dominates` takes an empty domain for a wildcard but not an empty type name, which `valid_sequence`
  does: rewriting keeps dominance exactly for names that are not empty (`EventType.RewriteKeepsDominance`).
- A ring list that is full, below its maximum and without an increment is not refused an insert: it is
  copied at the same size, an item is lost and the count goes past the capacity
  (`RingList.List.InsertTail`, `RingList.List.InsertHead`: the ring stays one exactly if it is not stuck).
- A removal from an empty ring list through its own cursor takes one from an unsigned zero
  (`RingList.List.Remove`); the guards cover only rings whose head and tail differ.
- The comment at `include/RDIEvent.h:271-274` allows only alphanumerics and underscores in names;
  `valid_sequence` does not check it, and neither does the model.

## Model

| member | source | states |
|---|---|---|
| LinearHashRuns.RunFromNew | include/RDIHash.h:184-319 | From a new table of any size and capacity, every sequence of insert, replace, remove, lookup and clear is answered call for call as a finite map answers it, through all splits on the way |
| LinearHashRuns.RunRefinesMap | include/RDIHash.h:208-319 | The same from any table that represents a map; the final table represents the final map, so `_num_pairs` is its size |
| LinearHashLaws.InsertLaw | include/RDIHash.h:208-251 | insert of a present key returns -1 and changes nothing; of an absent key returns 0 and adds exactly that pair |
| LinearHashLaws.LookupLaw | include/RDIHash.h:253-264 | lookup finds the map's value for the key, or nothing when it has none |
| LinearHashLaws.ReplaceLaw | include/RDIHash.h:277-285 | replace changes the value of a present key only, and leaves the table alone for an absent one |
| LinearHashLaws.RemoveLaw | include/RDIHash.h:287-302 | remove takes out exactly the key, and changes nothing when it is absent |
| LinearHashLaws.ClearLaw | include/RDIHash.h:304-319 | clear leaves a well-formed table of the empty map, with the whole directory in use and the capacity and the count of splits kept |
| LinearHashLaws.InitLaw | include/RDIHash.h:184-206 | A new table represents the empty map; its directory is as long as the least power of two not below `size`, nothing is split yet, and the bucket capacity is `capa`, or 5 for 0 |
| LinearHashLaws.SplitLaw | include/RDIHash.h:399-480 | split, with its doubling and its wrap, keeps the map and puts every pair in the bucket pseudo_hash gives it |
| LinearHashLaws.SplitMovesOnly | include/RDIHash.h:399-480 | Only hashes whose low bits equal the split index can change address, and only to split index plus `_curr_size` |
| LinearHashLaws.AddressIs | include/RDIHash.h:372-378 | The masks give the remainder by `_curr_size`, or by `_next_size` where that remainder is below the split index |
| LinearHashLaws.SplitEffect | include/RDIHash.h:399-480 | split either ends the round, resetting the split index and nothing else, or doubles the directory if it is the first of its round, advances the split index by one and counts one split |
| LinearHashLaws.InsertTrace | include/RDIHash.h:221-249 | An insert of an absent key splits exactly as long as it finds the bucket of the key filled to the capacity, five times at most, and pushes the pair in the table that leaves |
| LinearHashLaws.PushEffect | include/RDIHash.h:237-249 | The new pair is first in the chain of its address, and every other chain is left alone |
| LinearHashLaws.WrapKeepsAddresses | include/RDIHash.h:407-417 | The wrap step that resets the split index changes no hash's address |
| LinearHashLaws.DoubleKeeps | include/RDIHash.h:419-443 | Doubling the directory keeps the represented map |
| LinearHashLaws.OneMap | include/RDIHash.h:372-397 | A table represents at most one map |
| LinearHashRuns.GrowthConserved | include/RDIHash.h:184-251 | In every run without clear, `_curr_size` plus `_split_idx` less `_num_split` never changes, and `_next_size` is `_curr_size` or twice it |
| LinearHashRuns.ApplySlack | include/RDIHash.h:304-319 | That balance is kept by every call, and by clear exactly when all allocated buckets were in use |
| LinearHashRuns.GrowSlack | include/RDIHash.h:221-236 | An insert makes at most five splits, and each adds one bucket to those in use |
| LinearHashRuns.EmptyPastFrontier | include/RDIHash.h:372-378 | Buckets at or past `_curr_size` plus `_split_idx` are empty |
| LinearHashRuns.FlatIsMap | include/RDIHash.h:337-370 | The chains in directory order hold each pair of the map exactly once, `_num_pairs` in all |
| HashTable.HashTable.constructor | include/RDIHash.h:184-206 | Builds the empty directory of the size the doubling loop finds, with the capacity asked for, or 5 for 0 |
| HashTable.HashTable.Insert | include/RDIHash.h:208-251 | The chains, counts and return code are those of the value-level insert |
| HashTable.HashTable.Lookup | include/RDIHash.h:253-264 | The chain walk finds what the value-level lookup does |
| HashTable.HashTable.Exists | include/RDIHash.h:266-275 | True exactly when lookup finds the key |
| HashTable.HashTable.Replace | include/RDIHash.h:277-285 | Overwrites the value in place, and nothing else |
| HashTable.HashTable.Remove | include/RDIHash.h:287-302 | Unlinks the node and adjusts the counts |
| HashTable.HashTable.Clear | include/RDIHash.h:304-319 | Empties every chain; the sizes become the directory's, the split index and the count of pairs zero, and the count of splits stays |
| HashTable.HashTable.PseudoHash | include/RDIHash.h:372-378 | The masks give the address of the key, within the directory |
| HashTable.HashTable.LookupNode | include/RDIHash.h:380-397 | The node, its predecessor and its bucket are those of the first pair with the key |
| HashTable.HashTable.Split | include/RDIHash.h:399-480 | Wrap, doubling and redistribution by relinking compute the value-level split |
| HashTable.HashTable.Redistribute | include/RDIHash.h:450-472 | The walk over the split chain keeps the pairs that stay in order and pushes each of the others on the chain its low bits name |
| HashTable.HashTable.Visit | include/RDIHash.h:66-100 | A cursor run from frst_node through next_node to its end meets all chains in directory order, so by FlatIsMap each pair once |
| HashTable.HashTable.FrstNode | include/RDIHash.h:337-349 | The cursor starts at the first pair in directory order, or past the end of an empty table |
| HashTable.HashTable.NextNode | include/RDIHash.h:351-370 | The cursor goes on by exactly one pair in directory order, and stays past the end |
| CircularList.OncePerPass | include/RDISafeList.h:88-180 | In a pass, an element that is in the list at its end and was not removed in it was returned exactly once; one that is not, never |
| CircularList.NeverTwice | include/RDISafeList.h:88-180 | In a pass no element is returned more often than it had a turn to come or was inserted anew |
| CircularList.PassBalance | include/RDISafeList.h:88-180 | Between nulls, returns, turns lost by removal and turns to come add up to the turn at the start and the insertions |
| CircularList.ReinsertedTwice | include/RDISafeList.h:88-112 | Removed and inserted again within a pass, an element is returned twice |
| CircularList.RemoveLaw | include/RDISafeList.h:100-180 | remove takes out exactly its entry, and every other element keeps its turn |
| CircularList.RemoveNearest | include/RDISafeList.h:100-112 | Of several occurrences remove takes out the first one from the element returned last on and round; the others keep their order and the iterator its place among them |
| CircularList.WaitIsWait | include/RDISafeList.h:116-130 | The wait of an element is the number of iter_next calls that return something else before it is returned |
| CircularList.WaitStep | include/RDISafeList.h:116-130 | Each iter_next shortens a wait by one, and returns the element whose wait is over |
| CircularList.InsertWait | include/RDISafeList.h:88-98 | An insertion lengthens no wait of an element whose turn is to come, and by one call that of one that had its turn |
| CircularList.RemoveWait | include/RDISafeList.h:100-180 | Removing another element lengthens no wait, and shortens it by one exactly when that element would have come first |
| CircularList.NullTwice | include/RDISafeList.h:114-130 | Two nulls in a row exactly when the list is empty |
| SafeList.List.constructor | include/RDISafeList.h:83-86 | An empty list at the start of a round |
| SafeList.List.Insert | include/RDISafeList.h:88-98 | The element is appended and has its turn in this round, also when the end marker was due |
| SafeList.List.Remove | include/RDISafeList.h:100-112 | Removes the occurrence the search from the last returned element finds first |
| SafeList.List.RemoveIdx | include/RDISafeList.h:156-180 | The shifting loop takes out the index, and the place among the others stays; an index past the end is ignored |
| SafeList.List.IterNext | include/RDISafeList.h:116-130 | Returns the element at the place and goes on, or the round's null and back to the start |
| SafeList.List.Scan | include/RDISafeList.h:50-66 | The recommended loop returns every element once, from the place on and round; it restores the place unless that was the start of a round |
| OplockRuns.ReachableStates | include/RDIOplocks.h:50-60 | In every run: one user at a time has the lock, `_inuse` is the number of live bumps, an owner is disposed at most once, who has asked for disposal is disposed or about to be, and an entry without owner is out of use |
| OplockRuns.BumpedIsSafe | include/RDIOplocksMacros.h:531-587 | In every run, who has a live bump has an entry that is its own, linked and not disposed |
| OplockRuns.TempReacquires | include/RDIOplocksMacros.h:589-614 | After any run, the end of a TempRelease of a user with a live bump finds the entry its own, and when it gets the mutex the lock is held again with the release closed |
| OplockRuns.TempRestores | include/RDIOplocksMacros.h:589-614 | A TempRelease in a bumped scope gives its user back as it was, whatever others do meanwhile and whatever guards the user opens and leaves in between |
| OplockRuns.TempLosesLock | include/RDIOplocksMacros.h:589-614 | A run in which a TempRelease without a bump loses the lock |
| OplockRuns.OnlyOwnersFree | lib/RDIOplocks.cc:438-478 | A guard that holds the lock is never turned away by free_entry, so the mutex is released |
| OplockRuns.DisposalExactly | lib/RDIOplocks.cc:341-478 | An object is disposed exactly when its guard asking for disposal ends with the entry out of use, or alloc_entry comes to its entry; it is the entry's owner, and its pointer is cleared |
| OplockRuns.LastUse | include/RDIOplocks.h:58-60 | The end of the last use of a disposed entry disposes it only if the guard that ends asks for it again; otherwise the disposal stays due |
| OplockRuns.DisposalLeftBehind | include/RDIOplocks.h:58-60 | A run that ends with the entry out of use, disposal asked for, and the object not disposed |
| OplockRuns.BumpsOnceDisposed | include/RDIOplocks.h:53-54 | A disposed entry is bumped exactly by a conditional bump of a lock that is held |
| OplockRuns.BroadcastExactly | lib/RDIOplocks.cc:77-238 | `_inuseone` is broadcast exactly at a fall from 2 to 1 that is not the end of a wait |
| OplockRuns.OthersLeaveAlone | include/RDIOplocksMacros.h:404-614 | Steps of other users change neither a user's lock status nor its guards, and keep the invariant |
| OplockLaws.NextKeeps | include/RDIOplocksMacros.h:404-614 | Every step of every guard, wait and allocation keeps the invariant of users, entry and history; what each of them does, the rows of OplockSteps say |
| OplockLaws.RunKeeps | include/RDIOplocksMacros.h:404-614 | The invariant holds along every run |
| OplockLaws.UnlockOk | include/RDIOplocksMacros.h:497-524 | The end of a held scope, with or without bump and disposal, keeps the invariant |
| OplockSteps.ScopeBeginDoes | include/RDIOplocksMacros.h:488-557 | The first half of a lock scope changes only its user: on to the mutex exactly if the object's pointer is the entry, which is its own and not disposed, and open without the lock otherwise |
| OplockSteps.CondBeginDoes | include/RDIOplocksMacros.h:410-458 | The first half of a conditional scope keeps a held lock and bumps it, and does as a lock scope otherwise |
| OplockSteps.TakeLockDoes | lib/RDIOplocks.cc:51-63 | With the mutex, a lock scope or conditional scope has the lock and the mutex exactly if the entry is its object's and not disposed, and `_inuse` grows by one exactly if it is then a bumping guard |
| OplockSteps.SetDisposeDoes | include/RDIOplocksMacros.h:192-193 | The innermost scope will ask for disposal, and nothing else changes |
| OplockSteps.UnlockDoes | include/RDIOplocksMacros.h:497-524 | The end of a held scope frees the mutex and takes back a bump; where disposal is asked for, the entry is nobody's and the object disposed with its pointer cleared if no use is left, and is marked with the object otherwise |
| OplockSteps.ScopeEndDoes | include/RDIOplocksMacros.h:497-587 | Leaving a lock scope and releasing it early do that exactly if it has the lock; released early, it stays open without it |
| OplockSteps.CondEndDoes | include/RDIOplocksMacros.h:421-470 | The end of a conditional scope takes back its own bump and gives up a lock it took itself, and nothing else |
| OplockSteps.TempBeginDoes | include/RDIOplocksMacros.h:594-602 | The mutex is free, the lock not held, and the entry the same |
| OplockSteps.TempEndDoes | include/RDIOplocksMacros.h:603-609 | The lock is tried for again exactly if the entry is still the object's, disposed or not |
| OplockSteps.ReacquireDoes | lib/RDIOplocks.cc:65-75 | It is back, with the mutex, exactly if the entry is still the object's when the mutex is there |
| OplockSteps.WaitBeginDoes | lib/RDIOplocks.cc:77-89 | A wait bumps an entry exactly if it is not disposed, a wait for the last use never, and both free the mutex and keep `held` |
| OplockSteps.WaitEndDoes | lib/RDIOplocks.cc:77-89 | The waiter has the mutex again, and exactly its own bump is undone |
| OplockSteps.AllocExactly | lib/RDIOplocks.cc:353-416 | Wherever the invariant holds, the entry can go to a new owner exactly when nobody has its mutex and it has no owner or a disposal due |
| OplockSteps.AllocDoes | lib/RDIOplocks.cc:353-416 | It is then as new, its pointer the new owner's alone, and its old owner, if there is one, disposed |
| OplockRuns.TakenWhenFree | lib/RDIOplocks.cc:353-416 | AllocExactly after every run |
| OplockProgress.AllCanClose | include/RDIOplocksMacros.h:36-177 | No deadlock: from every state of the invariant with room in `_inuse`, all users can close all their guards; the entry is then out of use and its mutex free |
| OplockProgress.EveryRequestIsServed | lib/RDIOplocks.cc:341-478 | After every run, a continuation exists after which everybody who has asked for disposal is disposed |
| OplockProgress.LockIsHad | include/RDIOplocksMacros.h:404-557 | A lock nobody has, of an object that is not disposed, is had by whoever opens a scope, conditional or not, with one more use for a bumping guard |
| OplockProgress.ScopeRoundTrip | include/RDIOplocksMacros.h:404-587 | Leaving that scope restores the whole state, but for the broadcast of a fall from 2 to 1 |
| OplockProgress.CondRoundTrip | include/RDIOplocksMacros.h:404-477 | So does leaving a conditional scope over a held lock |
| OplockProgress.ReleaseRoundTrip | include/RDIOplocksMacros.h:589-614 | A TempRelease nobody disturbs restores the whole state |
| OplockProgress.WaitRoundTrip | lib/RDIOplocks.cc:77-89 | So does a wait of either kind |
| OplockRefinement.ScopeBegins | include/RDIOplocksMacros.h:479-557 | The constructor of ScopeLock takes objects that show a state to objects that show the state after ScopeBegin |
| OplockRefinement.ScopeTakes | include/RDIOplocksMacros.h:479-557 | So does its second half for TakeLock, in every state of the invariant |
| OplockRefinement.ScopeSetsDispose | include/RDIOplocksMacros.h:192-193 | So does the setting of the dispose info for SetDispose |
| OplockRefinement.ScopeEnds | include/RDIOplocksMacros.h:497-587 | So do its destructor and early_release for Leave and EarlyRelease; what is disposed is what the state records |
| OplockRefinement.CondBegins | include/RDIOplocksMacros.h:404-458 | So does the constructor of CondLock for CondBegin |
| OplockRefinement.CondTakes | include/RDIOplocksMacros.h:404-458 | So does its second half for TakeLock |
| OplockRefinement.CondEnds | include/RDIOplocksMacros.h:421-470 | So does its destructor for Leave |
| OplockRefinement.TempBegins | include/RDIOplocksMacros.h:594-602 | So does the constructor of TempRelease for TempBegin |
| OplockRefinement.TempEnds | include/RDIOplocksMacros.h:603-609 | So does its destructor for TempEnd |
| OplockRefinement.TempTakes | include/RDIOplocksMacros.h:603-609 | So does its second half for TakeLock |
| OplockRefinement.WaitBegins | lib/RDIOplocks.cc:77-89 | So do the two kinds of wait for WaitBegin |
| OplockRefinement.WaitEnds | lib/RDIOplocks.cc:77-89 | So do their ends for WaitEnd |
| OplockRefinement.Allocates | lib/RDIOplocks.cc:353-416 | So does taking the entry from the free list for Alloc |
| OplockPending.DueStaysExactly | lib/RDIOplocks.cc:379-387 | A due entry nobody holds stays due in every continuation exactly when no user of the owner has the lock released for a while |
| OplockPending.UnsettledReachable | lib/RDIOplocks.cc:379-387 | A run to a due entry that does not stay due |
| OplockPending.CondKeepsHeld | include/RDIOplocksMacros.h:404-477 | A conditional scope over a held lock gives it back held, whatever others do and however scopes and waits nest in it, if the lock is not released for a while inside |
| OplockEntry.Entry.Lock | lib/RDIOplocks.cc:51-75 | acquire and reacquire keep the mutex exactly if the second look still finds the entry the caller's |
| OplockEntry.Entry.Bump | lib/RDIOplocks.cc:216-224 | One more use, in 16 bits |
| OplockEntry.Entry.Debump | lib/RDIOplocks.cc:226-238 | One use less, never below zero, with a broadcast exactly at the fall to 1 |
| OplockEntry.Entry.WaitBegin | lib/RDIOplocks.cc:77-89 | Bumps unless disposed, and releases the mutex |
| OplockEntry.Entry.WaitEnd | lib/RDIOplocks.cc:77-89 | Takes the mutex and undoes the bump it made |
| OplockEntry.Oplocks.FreeEntry | lib/RDIOplocks.cc:438-478 | A caller that is not the owner changes nothing; the owner's object is disposed and the entry nobody's if it is out of use, and the entry marked disposed with the info kept otherwise; its mutex is free and it is last on the free list, and only once |
| OplockEntry.Oplocks.FindFit | lib/RDIOplocks.cc:353-416 | The walk along the free list stops at the first entry that is out of use and either nobody's and not disposed or somebody's and disposed, at the list's end if there is none |
| OplockEntry.Oplocks.TakeEntry | lib/RDIOplocks.cc:365-414 | That entry leaves the free list for its new owner, as new, after the disposal due to the old one, whose `_oplockptr` is cleared |
| OplockEntry.Oplocks.AllocEntry | lib/RDIOplocks.cc:341-436 | The first such entry, or a new one if there is none, goes to the new owner as new and the others are left alone; nothing after shutdown or for a null owner |
| Oplock.AllocatedExactly | lib/RDIOplocks.cc:353-416 | In the fields of the entry: when alloc_entry takes it, what its new owner finds, and what is disposed |
| OplockScopes.ScopeLock.constructor | include/RDIOplocksMacros.h:479-567 | Not held, and on to the mutex exactly if there is an entry and it is the object's and not disposed |
| OplockScopes.ScopeLock.TakeLock | include/RDIOplocksMacros.h:479-567 | With the mutex, held exactly if the entry is still the object's and not disposed; bumped then and only then |
| OplockScopes.ScopeLock.Leave | include/RDIOplocksMacros.h:497-587 | Destructor and early_release: debump, then free_entry or release, exactly if held |
| OplockScopes.CondLock.constructor | include/RDIOplocksMacros.h:404-458 | A held lock stays held and is bumped; one that is not is on to the mutex exactly if the entry is the object's and not disposed |
| OplockScopes.CondLock.TakeLock | include/RDIOplocksMacros.h:404-458 | With the mutex, held and bumped exactly if the entry is still the object's and not disposed |
| OplockScopes.CondLock.Leave | include/RDIOplocksMacros.h:421-470 | Undoes the bump, and releases exactly a lock it took itself |
| OplockScopes.TempRelease.constructor | include/RDIOplocksMacros.h:594-602 | The mutex is released and nothing else of the entry changes |
| OplockScopes.TempRelease.Leave | include/RDIOplocksMacros.h:603-609 | On to the mutex exactly if there is an entry and it is the object's, disposed or not |
| OplockScopes.TempRelease.TakeLock | include/RDIOplocksMacros.h:603-609 | With the mutex, held exactly if the entry is still the object's, disposed or not |
| RingList.List.constructor | include/RDIList.h:160-167 | An empty deque with the initial capacity cut at the maximum |
| RingList.List.Copy | include/RDIList.h:169-177 | A copy with the same items in a ring of its own |
| RingList.List.Resize | include/RDIList.h:292-312 | Items and order survive, the capacity grows by the increment, cut at a nonzero maximum, and it fails exactly at that maximum |
| RingList.List.InsertHead | include/RDIList.h:183-196 | Puts the item first; fails, changing nothing, exactly when full at the maximum; loses the last item exactly when full below it without an increment |
| RingList.List.InsertTail | include/RDIList.h:198-211 | Puts the item last; fails, changing nothing, exactly when full at the maximum; loses the first item exactly when full below it without an increment |
| RingList.List.RemoveHead | include/RDIList.h:213-220 | Takes off the first item, if any |
| RingList.List.RemoveTail | include/RDIList.h:222-229 | Takes off the last item, if any |
| RingList.List.Remove | include/RDIList.h:231-274 | At a live cursor removes exactly that item, whichever side is shifted and wherever the ring wraps; a foreign cursor changes nothing, a stale one nothing while two items are left; the ring stays one exactly unless it is empty and the guards let the cursor through |
| RingList.List.CloseGap | include/RDIList.h:249-273 | Head, tail and inner removals all leave s[..k] + s[k+1..] |
| RingList.Mod | include/RDIList.h:256-270 | One subtraction at most gives the source's remainder |
| RingList.List.NextPrevInverse | include/RDIList.h:314-320 | next_index and prev_index are inverse on live slots |
| RingList.List.ScanForward | include/RDIList.h:46-49 | A forward scan by cursor meets the items in order |
| RingList.List.ScanBackward | include/RDIList.h:51-54 | A backward scan by cursor meets them in reverse order |
| Bitmap.Bitmap.constructor | include/RDIBitmap.h:93-98 | No bit is set |
| Bitmap.Bitmap.Assign | include/RDIBitmap.h:100-113 | The copy has the other's length and its set bits |
| Bitmap.Bitmap.SetAll | include/RDIBitmap.h:115-119 | Every bit below the length is set, though padding is filled too |
| Bitmap.Bitmap.Set | include/RDIBitmap.h:139-145 | Sets exactly the range, or nothing when it does not end within the bitmap |
| Bitmap.Bitmap.Clear | include/RDIBitmap.h:147-153 | Clears exactly the range, or nothing when it does not end within the bitmap |
| Bitmap.Bitmap.IsSet | include/RDIBitmap.h:127-131 | Membership in the set of set bits |
| Bitmap.Bitmap.IsClear | include/RDIBitmap.h:133-137 | Below the length and not set; past the end neither holds |
| Bitmap.Bitmap.FirstSet | include/RDIBitmap.h:155-169 | The least set bit at or after the offset, -1 exactly when there is none |
| Bitmap.Bitmap.FirstClear | include/RDIBitmap.h:171-185 | The least clear bit at or after the offset, -1 exactly when there is none |
| Bitmap.Bitmap.NumSet | include/RDIBitmap.h:187-201 | The size of the set, padding not counted |
| EventType.DominatesReflexive | include/RDIEvent.h:145-160 | Every type dominates itself |
| EventType.DominatesTransitive | include/RDIEvent.h:145-160 | Dominance is transitive on all types |
| EventType.DominanceKernel | include/RDIEvent.h:145-160 | Two types dominate each other exactly when they are spellings of one type |
| EventType.DominatesAntisymmetric | include/RDIEvent.h:145-160 | On normal types mutual dominance is equality |
| EventType.DominanceIsInclusion | include/RDIEvent.h:145-160 | On normal types dominance holds exactly when every concrete event the second matches is matched by the first |
| EventType.RewriteNormal | include/RDIEvent.h:266-308 | valid_sequence accepts a type exactly when its rewriting is normal, and leaves a normal type alone |
| EventType.AcceptableExactly | include/RDIEvent.h:277-308 | A type is accepted exactly if `*` occurs in a part only as the whole of it, and "%ALL" only with an empty domain or `*` |
| EventType.RewriteMeans | include/RDIEvent.h:266-308 | An accepted type, once rewritten, matches the events its spelling stands for: an empty part is a wildcard, and so is "%ALL" |
| EventType.RewriteSeqNormal | include/RDIEvent.h:266-308 | A sequence is accepted exactly when its rewriting is in normal form |
| EventType.NormalIsRewritten | include/RDIEvent.h:266-308 | The normal types are exactly those rewriting can produce |
| EventType.RewriteKeepsDominance | include/RDIEvent.h:145-160 | Rewriting an accepted type keeps what it dominates and is dominated by exactly when its name is not empty |
| EventType.ExternalizeRoundTrip | include/RDIEvent.h:310-323 | Validating what externalize_sequence made of a validated sequence gives the sequence back |
| EventType.ExternalForm | include/RDIEvent.h:310-323 | "*", "*" is never in the result, "", "%ALL" stands in each of its places, and every other place is unchanged |
| Subscription.ValidSequence | include/RDIEvent.h:277-308 | Accepts exactly sequences of well spelled types, and leaves each matching exactly the events its old spelling stands for; otherwise reports the first invalid index, the types up to it rewritten and the rest untouched |
| Subscription.ExternalizeSequence | include/RDIEvent.h:315-323 | Each "*", "*" is replaced by "", "%ALL" in place, nothing else changes, and none is left |
| Subscription.ComputeDiff | include/RDIEvent.h:162-213 | The bitmaps and loops compute the added types that are missing and the present types that go |
| Subscription.Update | include/RDIEvent.h:215-264 | Compaction in place and the appended types leave the original without the dropped, followed by the missing added ones |
| Subscription.Mark | include/RDIEvent.h:176-197 | The maps mark exactly the types that go and the added types that are there |
| Subscription.Compact | include/RDIEvent.h:245-254 | Shifting over the marked entries keeps exactly the others, in order |
| SubscriptionLaws.UpdateMembers | include/RDIEvent.h:215-264 | As a set the result is the original without the deleted, and the added |
| SubscriptionLaws.DiffMembers | include/RDIEvent.h:162-213 | toadd is added but not present, todel is present, deleted and not added |
| SubscriptionLaws.DiffIsFaithful | include/RDIEvent.h:162-264 | update by the computed delta gives the same sequence as the change itself, and it is the original without todel followed by toadd |
| SubscriptionLaws.UpdateIdempotent | include/RDIEvent.h:215-264 | The same change again changes nothing |
| SubscriptionLaws.UpdateNoDup | include/RDIEvent.h:215-264 | Duplicate-freeness of the original and the added list is kept |
| SubscriptionLaws.DiffUndoes | include/RDIEvent.h:162-264 | Swapping the halves of the delta undoes it up to order, with all duplicates |
| SubscriptionLaws.UpdateExternal | lib/RDIChannelUtil.cc:941-946 | On normal types update commutes with externalization: announcements in the external form lead to the external form of the list |
| TypeMapLaws.UpdateCount | lib/RDITypeMap.cc:80-177 | An update takes off as many registrations of the filter as the type is deleted, as far as there are any, puts on as many as it is added, and touches nobody else's |
| TypeMapLaws.UpdateList | lib/RDITypeMap.cc:80-177 | In order: the owner's list under a type loses the newest registrations of the filter, as often as the type is deleted, and gets the new ones in front; other lists stay |
| TypeMapLaws.ListsAreHistories | lib/RDITypeMap.cc:80-280 | After every run of updates, an owner's list under a type is what its own calls alone make of it in that way, the newest first |
| TypeMapLaws.SuppliersKnow | lib/RDITypeMap.cc:80-280 | In every run of updates, a supplier that applies each announcement to its list knows exactly the types somebody has a filter under, each once |
| TypeMapLaws.SuppliersSee | lib/RDIChannelUtil.cc:941-946 | In every run of validated updates, the list kept from externalized announcements is the external form of the list of SuppliersKnow |
| TypeMapLaws.SuppliersRecover | lib/RDIChannelUtil.cc:941-946 | From an empty map on, validating that list gives exactly the types somebody has a filter under, each once |
| TypeMapLaws.SuppliersSpelling | lib/RDIChannelUtil.cc:941-946 | From an empty map on, that list never holds "*", "*", holds "", "%ALL" exactly when somebody has a filter under "*", "*", and any other type exactly when somebody has a filter under it |
| TypeMapLaws.RunKeepsNormal | lib/RDITypeMap.cc:80-280 | In every run of validated updates the types in the map stay normal |
| TypeMapLaws.AnnouncementFaithful | lib/RDITypeMap.cc:171-176 | gadded and gdeled are exactly the change of the set of types in the map, in the order of the call's lists |
| TypeMapLaws.TypesAreRegistered | lib/RDITypeMap.cc:140-145 | A type is in the map exactly when somebody has a filter under it |
| TypeMapLaws.LookupFindsDominating | lib/RDITypeMap.cc:282-395 | In a map of normal types the four probes find exactly the owner's filters under types that dominate the event's type, one list to each spelling |
| TypeMapLaws.LookupAfterRun | lib/RDITypeMap.cc:282-395 | So they do after any run of validated updates from an empty map, each list being the history of its spelling, the newest first |
| TypeMapLaws.ProbesAreDominators | lib/RDITypeMap.cc:282-395 | The probed types are the dominating ones for every event exactly for types spelled as valid_sequence leaves them |
| TypeMap.TypeMap.Update | lib/RDITypeMap.cc:80-280 | The two loops over the hash table succeed and leave the contents and the announcement of the value-level update |
| TypeMap.TypeMap.Lookup | lib/RDITypeMap.cc:282-395 | starStar, domnStar, starType and domnType are the filters registered under their spellings |
| TypeMap.TypeMap.ObtainSubscriptionTypes | lib/RDITypeMap.cc:398-416 | The cursor loop lists each type of the map exactly once |
| TypeMap.TypeMap.constructor | lib/RDITypeMap.cc:34-38 | An empty map, for a table hashed and ranked by event type |
| Strings.StrHashOf | include/RDIHashFuncs.h:100-107 | The 32-bit loop computes the hash |
| Strings.StrHashIs | include/RDIHashFuncs.h:100-107 | The hash is the sum of the characters, each raised by 987654321, weighted with 129 to the number of characters after it, modulo 2^32 |
| Strings.StrRankEqual | include/RDIHashFuncs.h:79-80 | Rank 0 is equality of strings |
| Strings.StrRankLess | include/RDIHashFuncs.h:79-80 | A negative rank is the lexicographic order |
| Strings.StrRankOrders | include/RDIHashFuncs.h:79-80 | The rank is antisymmetric and transitive |
| Strings.EventRankEqual | include/RDIEvent.h:139-143 | Rank 0 is equality of event types |
| Strings.EventRankLess | include/RDIEvent.h:139-143 | A negative rank is a lesser domain, or the same domain and a lesser name |
| Strings.MixBytes | include/RDIEvent.h:134-137 | The mixed hash is the name's but for the top byte, where the low byte of the domain's is added by exclusive or |
| NameIndex.Event.InitVmap | include/RDIEvent.h:630-826 | The index is built once, and answers for every name as scans of the event's two parts do, or of the members of an any |
| NameIndex.IndexAny | include/RDIEvent.h:711-811 | For an any, the place of the first readable member of a struct with the name, or of the readable member of a union with the name; no other name is in the index |
| NameIndex.AnyNames | include/RDIEvent.h:711-811 | The scan of an any's names finds exactly that place, or nothing if there is none |
| NameIndex.Event.LookupRtval | include/RDIEvent.h:873-883 | The first variable-header property of the name, otherwise the last filterable-data property of it, otherwise nothing; for an any, the first readable member of a struct with the name, the readable member of a union if it has the name, and nothing for any other value |
| NameIndex.Event.LookupVahdr | include/RDIEvent.h:851-860 | The first variable-header property of the name; nothing for an event that is an any |
| NameIndex.Event.LookupFdata | include/RDIEvent.h:862-871 | The last filterable-data property of the name; nothing for an event that is an any |
| NameIndex.Event.LookupVahdrAt | include/RDIEvent.h:836-841 | The field of a valid index |
| NameIndex.Event.LookupFdataAt | include/RDIEvent.h:843-848 | The field of a valid index |
| NameIndex.IndexHeader | include/RDIEvent.h:647-662 | One more header field keeps the index that of the scans: an earlier field of the name wins |
| NameIndex.IndexData | include/RDIEvent.h:664-686 | One more data field keeps the index that of the scans: a later field of the name wins |
| EtypeParser.ParsesExactly | examples/parse_cmd_line.h:67-106 | A list is accepted with result ts exactly when ts is a nonempty list of printable types and the list is their printing |
| EtypeParser.ItemExactly | examples/parse_cmd_line.h:81-103 | An item parses to a type exactly when it is D::T with D nonempty and free of colons, T nonempty |
| EtypeParser.PrintThenParse | examples/sample_functions.cc:219-223 | Parsing inverts printing |
| EtypeParser.ParsedPrefix | examples/parse_cmd_line.h:67-106 | On failure, what is left in the result is the printable items before the first that is not one |
| EtypeParser.ParseEtypeList | examples/parse_cmd_line.h:67-106 | The loop that cuts the buffer with NULs reports an error exactly when the list does not parse, and leaves the parsed items, or the old result when there are none |
| EtypeParser.NextItem | examples/parse_cmd_line.h:77-104 | One turn of the loop parses the item at its place and leaves the rest of the buffer as it was |

## Left out

- Sizes and counts are unbounded: the source's unsigned limits are assumed not to be reached (directory doubling, ring growth, bitmap offsets). `_inuse` is 16 bits wide, and a bump is a step only while it has room.
- Allocation is assumed to succeed, so the branches that answer a failed `new` are not modelled.
- RDI_HashCursor: a cursor over a table that changes under it is not modelled; statistics and logging neither.
- RingList.List.Remove: a cursor whose slot is outside the buffer is excluded, because the source then reads there; the capacity is below the largest unsigned.
- RingList.List.InsertHead: a full ring whose maximum was set below its capacity, or with neither capacity nor increment, is excluded, because the source then writes outside its buffer.
- RingList.List.InsertTail: the same restriction as for InsertHead.
- RingList.List.Resize: the same restriction as for InsertHead.
- OplockEntry.Oplocks.AllocEntry: an entry of the free list whose mutex is locked, which the source waits for, is excluded; the mutex of the list is not modelled, and free_entry does not take it.
- `RDIOplocks::cleanup` and `shutdown`, which delete free entries.
- Oplock guards: an owner is the address of an `_oplockptr`, and an address is not used again. A new object at the address of a disposed one is excluded; that an owner is disposed at most once rests on it.
- Oplock guards: the check of `_oplockptr` is the release build's (null or not); the debugging duplicates do the same and log. Guards stay with the object they were opened for; that the object's memory is still there when a guard reads `_oplockptr` is up to its users.
- Oplock guards: the rules of use in the comments of the macros are conditions of the steps: no second lock of a held location but by a conditional guard, guards left innermost first, waits in a bumped scope.
- Timed waits and condition variables' wake-ups: a wait may end at any time its mutex is free.
- TypeMap.TypeMap.Update: the chains of admin, proxy and filter nodes are sequences stored back in the table, so the sharing of nodes between the table and its callers is not captured; the read-write lock and the propagation to the channel are not modelled, only what is announced.
- NameIndex.IndexAny: what DynAny finds in the value of an any, its members' names and whether they can be read, is a parameter of the model.
- Property values, init_from_any and the cached get_*_rtval functions: foreign types.
- EtypeParser.ParseEtypeList: the buffers the source never frees.
- foreach of the safe list, get_head and get_tail of the ring, drain and the setters: in the model where a class has them, without laws of their own.
- The event queue, the notification queue and the channel's change pool (`lib/RDIEventQueue.cc`, `lib/RDINotifQueue.cc`, `lib/RDIChannelUtil.cc`): of the last only the externalization of announcements is modelled.
- The POA, the name service, the thread pools and the constraint code generator, which rest on CORBA or on generated code.
