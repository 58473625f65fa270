# ASCYLIB-Cpp: concurrent lists, skip lists, queues, maps and locks

A model in Dafny of the algorithms of ASCYLIB-Cpp that are hard to get right, with proofs that
every interleaving of any number of threads is correct.

## How concurrency is modelled

Each concurrent algorithm is a state machine over its atomic writes. A module has

* the shared memory as a value (`Mem`): a sequence of nodes, addresses being positions in it, with
  lock words and a few fields of bookkeeping which the code never reads;
* the atomic steps (`Act`, `Enabled`, `Do`): every store, CAS, lock and unlock is one, reads happen
  in between. `Enabled` says what the thread that takes the step must hold or have seen;
* the invariant (`Inv`), and lemmas that every step of every thread keeps it and what exactly the
  step does to the abstract set, map or queue (`StepKeeps`, or `StepInv` and `StepEffect`);
* runs (`Run`, `IsRun`): all sequences of enabled steps by any threads, with lemmas for every state
  of every run;
* a class whose methods follow the code line by line, loops and fields included. Before every
  access to shared memory that others may change a method calls `Interfere`, which lets them take any number
  of enabled steps. Its own steps go through `Record`, where it has to prove that the step is
  enabled, which is what the other threads rely on.

The contracts of the operations are linearizability, told from the run of the call (`Calls`,
`SetCalls`): `MadeOnce(view, from, now, t, change)` says that exactly one step of the call changed
the abstract value and what the change was, `Quiet` that none did, `Saw` that the abstract value
had the property at some moment between call and return. `ListModel` states the same for lists as
`Added`, `Removed`, `Quiet`, `SawBinding`, `SawPresent` and `SawAbsent`.

A loop that waits or retries takes a bound (`rounds`, `steps`, `spins`, `tries`) in the model and
the operation returns `None` when the call has not returned within it; the bound is arbitrary, so
every call that returns is covered. Of unfinished calls two things are claimed: they have changed
nothing, or made their one change; and there was a reason. For the lock-free lists every round that
fails takes a step of another thread, for the lock-free queue operations a move of the queue; the
lock-based queues, the MCS lock and the array map have seen the lock taken; the others return when
they start with nothing locked and nobody disturbs them (`Calls.Alone`), and leave nothing locked
and nothing half done, so that such calls can follow each other.

The sequential skip list and the table of the rehash are plain sequential code with arrays and
loops.

## Files

* `History`, `Calls`, `SetCalls`: runs of a state machine as values, and what one call did.
* `ListModel`: the sorted list in memory, what an edit of one pointer does to it, the hindsight
  argument. `LazyList`, `HarrisList`, `HarrisOpt`, `OptikList`, `PughList`: the list algorithms.
  Pugh's list reverses pointers of removed nodes, so it has an invariant of its own.
* `OptikLock`: the integer OPTIK lock; `ArrayMapOptik`: the array map on top of it.
* `SkipModel`, `HerlihySteps`, `HerlihyKnowledge`, `HerlihySkipList`: the lock-based skip list;
  `SkiplistSeq`: the sequential one.
* `QueueModel`, `QueueLF`, `QueueHybrid`, `QueueLB`: one specification, three Michael-Scott queues.
* `JavaMapModel`, `JavaRehash`, `JavaRehashMeaning`, `JavaMapSteps`, `JavaMap`: the hash map with
  its rehash, one segment number with all the segments it ever has.
* `McsLock`: the MCS queue lock.

## What the proofs showed about the code

* Pugh's `remove` may answer "absent" early although the key is bound during the whole call.
  `search_strong_cond` reads the next of the last node once more, and answers whenever the node it
  finds does not have the key, also when it is one before the key. One insertion between the two
  reads is enough for that (`PughList.InsertionMisleads`), and so is a removal that has reversed
  the node (`PughList.ReversalMisleads`). It can happen to a key in some run if and only if another
  key fits between the lower sentinel and it (`PughList.EarlyAnswerMisleadsIff`), and only in the
  read-only-fail configuration; if the second read finds a node that is not before the key, the
  answer is right (`PughList.EarlyAnswerDecides`). `PughList.PughList.Remove` promises
  linearization in every other case.
* The rehash of the Java map needs capacities that are powers of two, which the constructor does
  not check (it asserts only divisibility). With any other capacity there are tables from which it
  loses a key, because two chains go to one new bucket and the second is stored over the first
  (`JavaRehashMeaning.OtherCapacitiesLose`; `JavaRehashMeaning.SixBucketsLose` is an example), so
  that keeping the bindings is equivalent to the power of two
  (`JavaRehashMeaning.KeepsBindingsIffPowerOfTwo`). The concurrent map is modelled with such
  capacities.
* `remove` of the Herlihy skip list returns 0 for a fully linked, unmarked node that the search met
  below its top level only. That is correct, because the key was absent at a moment of the search
  (`HerlihyKnowledge.OtherLevelSaw`).
* `insert` of the Herlihy skip list also checks that the successors are not marked. Its proof does
  not need that: an unmarked predecessor, locked, that still points to the successor is enough.
* The comment above `optimistic_search` says that `fast` makes it stop at the first match; the code
  ignores the parameter and always descends to level 0, and `insert` and `remove` rely on that.
* The constructors of the hybrid and the two-lock queue do not initialise their locks; the model
  starts with free ones.

## Model

| member | source | states |
|---|---|---|
| `ListModel.Hindsight` | src/algorithms/linkedlist_lazy.h:61-75 | whatever next a search reads from a node that was reachable since it began, there was a moment in between at which the node was reachable with that same next |
| `ListModel.TraversalStep` | src/algorithms/linkedlist_lazy.h:65-67 | one step of a search without locks goes to a node that was reachable, right behind the one before, at a moment of the call, and further right |
| `ListModel.TraversalVerdict` | src/algorithms/linkedlist_lazy.h:69-74 | a search that ends between two nodes may answer: the key is bound if the node has it and is alive, and otherwise was absent at a moment of the call, also when the node died meanwhile |
| `ListModel.DeathLeavesAbsent` | src/algorithms/linkedlist_lazy.h:146-147 | a node that was reachable and is not alive any more had its key absent at a moment in between |
| `ListModel.BindingsFunctional` | src/algorithms/linkedlist_lazy.h:76-116 | a well-formed list binds a key to one value at most |
| `ListModel.LinkEffect` | src/algorithms/linkedlist_lazy.h:104-109 | linking a node in behind a live node keeps the list sorted and adds exactly its pair, whose key was absent |
| `ListModel.MarkEffect` | src/algorithms/linkedlist_lazy.h:146 | marking a reachable node removes exactly its pair and leaves the chain alone |
| `ListModel.SnipMarkedEffect` | src/algorithms/linkedlist_harris.h:92-93 | swinging one pointer over any number of marked nodes changes no binding and takes exactly these nodes off the chain |
| `ListModel.UnlinkEffect` | src/algorithms/linkedlist_optik.h:116 | swinging a pointer over one unmarked node removes exactly its pair and takes exactly that node off the chain |
| `LazyList.StepKeeps` | src/algorithms/linkedlist_lazy.h:97-113 | every atomic step of any thread keeps the list sorted and every live node reachable, freezes the next of removed nodes, and changes the set only at the publishing store and at the mark |
| `LazyList.RunIsTame` | src/algorithms/linkedlist_lazy.h:25-160 | the same for every state of every run, in the form the hindsight argument needs |
| `LazyList.LeavesOrIsOff` | src/algorithms/linkedlist_lazy.h:146-156 | over whole runs: a marked node that is still on the list has the lock of the thread that marked it |
| `LazyList.RemovedIsOff` | src/algorithms/linkedlist_lazy.h:143-156 | so a thread that has removed a pair and holds no lock has taken its node off the list |
| `LazyList.LazyList.Search` | src/algorithms/linkedlist_lazy.h:61-75 | whatever other threads do between its reads, a hit was bound and a miss absent at a moment of the call; it takes no lock and always returns |
| `LazyList.LazyList.Validate` | src/algorithms/linkedlist_lazy.h:25-29 | when it succeeds under the locks, the two nodes are live neighbours; undisturbed it succeeds exactly then |
| `LazyList.LazyList.Insert` | src/algorithms/linkedlist_lazy.h:76-116 | 1 exactly if one step of the call added the pair, the key being absent before; 0 only if the key was bound at a moment of the call and the call changed nothing; all locks are released; a call that begins with no lock held, that nobody disturbs and that may make a round returns, and leaves no lock held |
| `LazyList.LazyList.Remove` | src/algorithms/linkedlist_lazy.h:118-160 | returns the value of the pair that exactly one step of the call removed, by marking a node that is off the list at return, or 0 with nothing changed and the key absent at a moment of the call; all locks are released; a call that begins with no lock held, that nobody disturbs and that may make a round returns, and leaves no lock held |
| `HarrisList.SnipKeeps` | src/algorithms/linkedlist_harris.h:92-93 | a snip of however many marked nodes is a no-op on the set, also when left->next went away and came back |
| `HarrisList.StepKeeps` | src/algorithms/linkedlist_harris.h:58-194 | next pointers go to larger keys, a marked next is frozen, unmarked nodes are reachable; the set changes only by a successful insert CAS or marking CAS, by one pair |
| `HarrisList.RunIsTame` | src/algorithms/linkedlist_harris.h:58-194 | the same for every state of every run |
| `HarrisList.FoundAnswers` | src/algorithms/linkedlist_harris.h:117-121 | from the moment at which left was alive with next right, and a moment at which right was unmarked, every answer about the key is right at a moment of the call |
| `HarrisList.HarrisList.Scan` | src/algorithms/linkedlist_harris.h:66-81 | the traversal ends with a left node that was unmarked with that next at one moment of the call, and a chain of marked nodes from there to the right node; undisturbed, left is so and right unmarked when it ends |
| `HarrisList.HarrisList.CasSnip` | src/algorithms/linkedlist_harris.h:92-93 | succeeds exactly by one step of this thread, which cuts out this run of marked nodes; when it fails, left is marked or its next another at that moment |
| `HarrisList.HarrisList.HarrisSearch` | src/algorithms/linkedlist_harris.h:58-110 | there was one moment during the call at which left was reachable and unmarked, left->next was right and left.key < key <= right.key, and a moment not before it at which right was unmarked; every round that fails takes a step of another thread, and an undisturbed search ends with the two nodes unmarked neighbours |
| `HarrisList.HarrisList.RetireCut` | src/algorithms/linkedlist_harris.h:94-103 | the retire loop hands back exactly the nodes the CAS cut out, each once |
| `HarrisList.RetiredByItsCutter` | src/algorithms/linkedlist_harris.h:95-102 | a node is only ever retired by the thread whose CAS unlinked it |
| `HarrisList.RetiredOnce` | src/algorithms/linkedlist_harris.h:95-102 | a retired node is never retired again and never cut out again |
| `HarrisList.SnipCutsChain` | src/algorithms/linkedlist_harris.h:92-93 | what a snip cuts out were reachable nodes, all different, no sentinels and not left itself |
| `HarrisList.HarrisList.Find` | src/algorithms/linkedlist_harris.h:112-124 | a value returned was bound to the key, 0 otherwise means absent, at a moment of the call; not returning takes a step of another thread for every round |
| `HarrisList.UnreachableIsDisposed` | src/algorithms/linkedlist_harris.h:92-103 | over whole runs: every unreachable node was cut out by some thread's snip, and that thread has retired it since or still owes it |
| `HarrisList.SearchTakesOff` | src/algorithms/linkedlist_harris.h:188-190 | a search for the key of a marked node, begun after the mark, ends with that node off the list, whoever has unlinked it |
| `HarrisList.HarrisList.Cleanup` | src/algorithms/linkedlist_harris.h:181-190 | when it is done the marked node is off the list, whether the CAS succeeded or the search had to follow |
| `HarrisList.HarrisList.Insert` | src/algorithms/linkedlist_harris.h:126-156 | 1 exactly if one step of the call added the pair; 0 only if the key was bound at a moment of the call; no cut node is left unretired; the node allocated is published or, on the answer 0, freed by the call itself, never both; not returning takes a step of another thread for every round |
| `HarrisList.HarrisList.Remove` | src/algorithms/linkedlist_harris.h:158-194 | returns the value of the pair that one step of the call removed, by marking a node that is off the list at return, or 0 with the key absent at a moment of the call; no node it cut out is left unretired; not returning takes a step of another thread for every round |
| `HarrisOpt.ReachedAnswers` | src/algorithms/linkedlist_harris_opt.h:75-96 | a node reached with a larger key, or a marked one with the key, proves a moment of the call without the key, although the walk may pass marked nodes beyond it |
| `HarrisOpt.HarrisOpt.PhysicalDeleteRight` | src/algorithms/linkedlist_harris_opt.h:58-73 | true exactly if one step of the call is this thread's CAS that cuts right out from behind left, and right is retired at return then; false only if left was marked or left->next was not right at a moment of the call; undisturbed, true exactly if right stood behind the unmarked left; no binding changes |
| `HarrisOpt.HarrisOpt.ListSearch` | src/algorithms/linkedlist_harris_opt.h:75-96 | left.key < key <= right.key; right has the key and was bound at a moment of the call, or the key was absent at one; undisturbed, it has unlinked the marked nodes it met and left and right are unmarked neighbours |
| `HarrisOpt.HarrisOpt.HarrisFind` | src/algorithms/linkedlist_harris_opt.h:98-112 | wait-free: a hit was bound, a miss absent at a moment of the call |
| `HarrisOpt.HarrisOpt.HarrisInsert` | src/algorithms/linkedlist_harris_opt.h:114-137 | 1 exactly if one step of the call added the pair, else 0 with the key bound at a moment of the call; not returning takes a step of another thread for every round |
| `HarrisOpt.HarrisOpt.HarrisRemove` | src/algorithms/linkedlist_harris_opt.h:139-164 | returns the value of the pair one step of the call removed, or 0 with the key absent at a moment of the call; undisturbed, the node removed is off the list at return; not returning takes a step of another thread for every round |
| `OptikLock.OperationsKeepSince` | include/optik.h:494-507 | lock, unlock, revert and a write under the lock never let the version a lock can come back to sink, nor change the data while it stays on an even one |
| `OptikLock.SameVersionSameData` | include/optik.h:488-507 | if the same even version is read before and after, the data read in between were the data all the time, even if others locked and reverted meanwhile |
| `OptikList.StepKeeps` | src/algorithms/linkedlist_optik.h:53-123 | a node is reachable exactly as long as its lock may still be released; every step keeps the list sorted; the set changes only by the two stores to pred->next |
| `OptikList.RunIsTame` | src/algorithms/linkedlist_optik.h:53-123 | the same for every state of every run |
| `OptikList.ValidatedNext` | src/algorithms/linkedlist_optik.h:60-73 | a version read before next, and a trylock that succeeds at this version: next is still what was read |
| `OptikList.OptikList.Search` | src/algorithms/linkedlist_optik.h:38-51 | never looks at a lock; a hit was bound and a miss absent at a moment of the call |
| `OptikList.OptikList.LockBoth` | src/algorithms/linkedlist_optik.h:107-114 | both locks taken at the versions read mean that pred, curr and next are still neighbours; otherwise nothing is held and nothing has changed; undisturbed on free locks it succeeds |
| `OptikList.OptikList.Insert` | src/algorithms/linkedlist_optik.h:53-84 | 1 exactly if one step of the call added the pair, 0 only if the key was bound at a moment of the call; no lock is kept; a call that begins with no lock held, that nobody disturbs and that may make a round returns, and leaves no lock held |
| `OptikList.OptikList.Remove` | src/algorithms/linkedlist_optik.h:86-123 | returns the value of the pair one step of the call removed, whose lock stays locked for ever, or 0 with the key absent at a moment of the call; no other lock is kept; a call that begins with no lock held, that nobody disturbs and that may make a round returns, and leaves no lock held |
| `PughList.LockedAndUpIsLive` | src/algorithms/linkedlist_pugh.h:147-162 | a node whose lock has just been acquired and whose next has a larger key is live |
| `PughList.WeakStepDecides` | src/algorithms/linkedlist_pugh.h:138-145 | when a weak search steps over the key, the key is in the set at that instant exactly when the node it steps to has it, also while a removed node is unlinked and not reversed yet |
| `PughList.UnlinkKeeps` | src/algorithms/linkedlist_pugh.h:101 | left->next = right->next removes exactly the pair of right and opens the window in which right still points forward |
| `PughList.ReverseKeeps` | src/algorithms/linkedlist_pugh.h:102 | right->next = left closes the window and changes no binding |
| `PughList.StepKeeps` | src/algorithms/linkedlist_pugh.h:58-109 | every step keeps the invariant; only linking a new node and unlinking change the set |
| `PughList.RunInv` | src/algorithms/linkedlist_pugh.h:47-162 | the same for every state of every run |
| `PughList.RemovedForEver` | src/algorithms/linkedlist_pugh.h:98-105 | a node whose removal is complete points to a smaller key in every later state of the run |
| `PughList.PughList.WeakLeft` | src/algorithms/linkedlist_pugh.h:128-137 | the walk's reads of next follow each other, each from the node the one before has found, and at the last one the next of the node returned was not before the key |
| `PughList.PughList.StrongFrom` | src/algorithms/linkedlist_pugh.h:152-161 | ends with the lock of a live node whose next has the first key not below the wanted one |
| `PughList.PughList.Search` | src/algorithms/linkedlist_pugh.h:47-56 | answers correctly at its last read of a next pointer; undisturbed it ends within a step per smaller key |
| `PughList.PughList.Insert` | src/algorithms/linkedlist_pugh.h:58-82 | 1 exactly if one step of the call added the pair; 0 only if the key was bound at a moment of the call, also on the early answer; locks released; a call that begins with no lock held, that nobody disturbs and that may make a step per smaller key returns, and leaves no lock held |
| `PughList.PughList.Remove` | src/algorithms/linkedlist_pugh.h:84-109 | returns the value of the pair one step of the call removed, or 0 with the key absent at a moment of the call, locks released; a call that begins with no lock held, that nobody disturbs and that may make a step per smaller key returns, and leaves no lock held; excepted is only the early answer when the same node, at which the walk ended with a next not before the key, is found at a later read to point before the key: that takes a step of another thread, and another key that fits below this one |
| `PughList.EarlyAnswerDecides` | src/algorithms/linkedlist_pugh.h:167-171 | if the second read finds a node that is not before the key, the early answer is right exactly as given |
| `PughList.EarlyAnswerMisleadsIff` | src/algorithms/linkedlist_pugh.h:164-171 | some run misleads the early answer of remove, the key being in the list from the beginning of the call to the answer, if and only if another key fits between the lower sentinel and the key |
| `PughList.InsertionMisleads` | src/algorithms/linkedlist_pugh.h:167-171 | a run in which a single insertion between the two reads of the head's next does it |
| `PughList.ReversalMisleads` | src/algorithms/linkedlist_pugh.h:98-109 | and one in which the node re-read has been removed and reversed |
| `SkipModel.LevelIsChain` | src/algorithms/skiplist_herlihy_lb.h:300-317 | following next on a level from the head one meets exactly the nodes the invariant counts on that level |
| `SkipModel.LevelsNest` | src/algorithms/skiplist_herlihy_lb.h:145-153 | every node that can be met on level i+1 can be met on level i |
| `SkipModel.EnterShape` | src/algorithms/skiplist_herlihy_lb.h:145-153 | linking a new node in on the lowest level keeps every level sorted and gap-free and the levels nested |
| `SkipModel.LinkShape` | src/algorithms/skiplist_herlihy_lb.h:151-153 | so does linking it in one level higher |
| `SkipModel.UnlinkShape` | src/algorithms/skiplist_herlihy_lb.h:225-228 | so does taking a marked node off its highest level |
| `SkipModel.GapLacks` | src/algorithms/skiplist_herlihy_lb.h:302-316 | neighbours on a level leave no room for a key between theirs on that level, on the lowest level none in the set |
| `SkipModel.ContentsFunctional` | src/algorithms/skiplist_herlihy_lb.h:72-83 | the fully linked unmarked nodes bind each key at most once |
| `HerlihySteps.StepInv` | src/algorithms/skiplist_herlihy_lb.h:117-234 | at every atomic step of any thread each level is strictly sorted and contained in the one below, a marked node still on some level is locked, and whoever spins holds only locks of larger keys |
| `HerlihySteps.StepEffect` | src/algorithms/skiplist_herlihy_lb.h:154-197 | the set changes exactly in the steps fullylinked = 1 and marked = 1, by one pair |
| `HerlihySteps.StepGrows` | src/algorithms/skiplist_herlihy_lb.h:117-234 | keys and flags only ever move one way; a next changes only on a level its node is on before and after, so that a removed node is frozen |
| `HerlihySteps.StepKept` | src/algorithms/skiplist_herlihy_lb.h:117-234 | no step of another thread touches a node one has locked, or the levels not linked yet of a node one is inserting |
| `HerlihySteps.RunGrows` | src/algorithms/skiplist_herlihy_lb.h:72-243 | the invariant holds in every state of every run and nodes only age |
| `HerlihySteps.AcquisitionsDescend` | src/algorithms/skiplist_herlihy_lb.h:121-133 | every lock acquired, by any thread in any state, belongs to a key strictly below those of all locks the thread holds |
| `HerlihySteps.NoWaitCycle` | src/algorithms/skiplist_herlihy_lb.h:121-141 | no state of any run has a cycle of threads that wait for each other's locks |
| `HerlihySteps.AloneEndsQuiescent` | src/algorithms/skiplist_herlihy_lb.h:117-234 | a thread that alone has taken steps since all was quiet, holds no lock and has finished what it inserted leaves all quiet |
| `HerlihyKnowledge.Hindsight` | src/algorithms/skiplist_herlihy_lb.h:291-319 | level by level: a next read from a node that was on the level was its next at a moment at which it was on the level |
| `HerlihyKnowledge.MarkedSaw` | src/algorithms/skiplist_herlihy_lb.h:77-79 | a node that was linked and is marked now: the key was absent at a moment in between |
| `HerlihyKnowledge.FullySaw` | src/algorithms/skiplist_herlihy_lb.h:108-113 | a node seen unmarked that is fully linked later was an element at a moment in between |
| `HerlihyKnowledge.OtherLevelSaw` | src/algorithms/skiplist_herlihy_lb.h:280-284 | a fully linked node met below its top level only: the key was absent at a moment of the search, so that the failed removal is right |
| `HerlihyKnowledge.NewPredIsBelow` | src/algorithms/skiplist_herlihy_lb.h:122-128 | equal predecessors are contiguous: one that differs from the last one locked is not locked yet and has a smaller key than all that are |
| `HerlihyKnowledge.ReleasedOnce` | src/algorithms/skiplist_herlihy_lb.h:347-353 | unlock_levels comes to each locked predecessor exactly once |
| `HerlihyKnowledge.ValidatedPointsToVictim` | src/algorithms/skiplist_herlihy_lb.h:204-228 | after validation preds[i]->next[i] is the victim on every level below its height |
| `HerlihyKnowledge.LeavesOrIsOff` | src/algorithms/skiplist_herlihy_lb.h:196-234 | over whole runs: a marked node is locked by the thread that marked it until it is on no level |
| `HerlihyKnowledge.RemovedIsOff` | src/algorithms/skiplist_herlihy_lb.h:225-234 | so a thread that has removed a pair and holds no lock has taken its node off every level |
| `HerlihyKnowledge.QuietIsValid` | src/algorithms/skiplist_herlihy_lb.h:121-133 | what a search has found while all is quiet passes the validation as long as nothing but locks and the mark of the node removed changes |
| `HerlihySkipList.SkipList.Search` | src/algorithms/skiplist_herlihy_lb.h:72-83 | takes no lock; a hit was bound and a miss absent at a moment of the call |
| `HerlihySkipList.SkipList.OptimisticSearch` | src/algorithms/skiplist_herlihy_lb.h:291-319 | for every level a predecessor below and a successor not below the key that were neighbours at a moment of the call, predecessors moving right on the way down, and the highest level on which the key was met; it only fails after meeting a marked predecessor |
| `HerlihySkipList.SkipList.LockAndValidate` | src/algorithms/skiplist_herlihy_lb.h:117-133 | locks each predecessor once and validates level by level; holds then exactly the predecessors up to highest_locked, besides what was held before; it refuses only if on some level the predecessor is marked or points elsewhere, or for insert the successor is marked, insert has seen every successor unmarked when it agrees, and it waits only for a lock of another thread |
| `HerlihySkipList.SkipList.UnlockLevels` | src/algorithms/skiplist_herlihy_lb.h:341-355 | releases exactly the predecessor locks taken, after success and after failure |
| `HerlihySkipList.SkipList.LinkAll` | src/algorithms/skiplist_herlihy_lb.h:145-154 | links bottom-up; the key is added, once, when fullylinked is set |
| `HerlihySkipList.SkipList.OkToDelete` | src/algorithms/skiplist_herlihy_lb.h:280-284 | it agrees exactly if the node is fully linked, met on its top level and not marked; when it refuses, the key was absent at a moment of the call |
| `HerlihySkipList.SkipList.UnlinkAll` | src/algorithms/skiplist_herlihy_lb.h:225-228 | unlinks top-down on all levels without changing the set |
| `HerlihySkipList.SkipList.Insert` | src/algorithms/skiplist_herlihy_lb.h:88-160 | 1 exactly if one step of the call added the pair, with a node of the height asked for; 0 only if the key was bound at a moment of the call; holds no lock afterwards; a call that begins when no lock is held and no insertion or removal is half done, and that nobody disturbs, returns and leaves it so |
| `HerlihySkipList.SkipList.Remove` | src/algorithms/skiplist_herlihy_lb.h:162-243 | returns the value of the pair one step of the call removed, by marking a node that is on no level at return, or 0 with the key absent at a moment of the call; holds no lock afterwards; a call that begins when no lock is held and no insertion or removal is half done, and that nobody disturbs, returns and leaves it so |
| `SkiplistSeq.LevelIsChain` | src/algorithms/skiplist_seq.h:76-82 | following next on a level from the head one meets exactly the nodes of that level |
| `SkiplistSeq.LevelsNest` | src/algorithms/skiplist_seq.h:111-121 | each level is a part of the one below |
| `SkiplistSeq.LinkLevel` | src/algorithms/skiplist_seq.h:115-120 | linking a node in between neighbours keeps the level a sorted gap-free list with that node added |
| `SkiplistSeq.UnlinkLevel` | src/algorithms/skiplist_seq.h:147-149 | unlinking keeps it one without that node |
| `SkiplistSeq.MetIffThere` | src/algorithms/skiplist_seq.h:146-150 | the descent meets the key on exactly the levels of the node that has it |
| `SkiplistSeq.SkipList.Descend` | src/algorithms/skiplist_seq.h:98-106 | on every level the last node below the key and its successor |
| `SkiplistSeq.SkipList.Search` | src/algorithms/skiplist_seq.h:68-88 | the one value bound to the key, or 0 if it is absent |
| `SkiplistSeq.SkipList.Insert` | src/algorithms/skiplist_seq.h:90-124 | for any height in 1..levelmax: adds exactly the pair, with one new node on exactly the levels below the height, if the key was absent, else changes nothing; every level stays a sorted part of the one below |
| `SkiplistSeq.SkipList.Remove` | src/algorithms/skiplist_seq.h:126-154 | removes exactly the pair of the key, taking its node off every level and nothing else, and returns its value, or changes nothing if the key is absent |
| `QueueModel.LinkInEnqueues` | src/algorithms/queue_ms_lf.h:46 | setting the last node's next is one enqueue at the back |
| `QueueModel.HeadStepDequeues` | src/algorithms/queue_ms_lf.h:75 | moving head to its next is one dequeue of the front item |
| `QueueModel.NoNextIsEmpty` | src/algorithms/queue_ms_lf.h:67-70 | a head without next means an empty queue, and the other way round |
| `QueueLF.StepKeeps` | src/algorithms/queue_ms_lf.h:33-85 | head never passes tail, tail is the last node or its predecessor; each successful next-CAS is one enqueue, each successful head-CAS one dequeue, a step of tail is invisible |
| `QueueLF.RunMovesForward` | src/algorithms/queue_ms_lf.h:33-85 | over every run head and tail only move forward and a next once set stays |
| `QueueLF.Fifo` | src/algorithms/queue_ms_lf.h:33-85 | over all interleavings: items dequeued so far followed by those in the queue are the items enqueued so far, in order |
| `QueueLF.QueueLF.TryAdd` | src/algorithms/queue_ms_lf.h:38-55 | the two separate reads of tail denote the same node once the recheck passes; a round that links the node in is one enqueue, any other changes nothing and head or tail has moved or another item was linked in meanwhile |
| `QueueLF.QueueLF.Add` | src/algorithms/queue_ms_lf.h:33-57 | exactly one step of the call enqueues the item and tail has come past its node; lock-free: a call that has not returned has seen the queue move on in every round |
| `QueueLF.QueueLF.Remove` | src/algorithms/queue_ms_lf.h:59-85 | exactly one step of the call dequeues the item returned, or the call changed nothing and the queue was empty when next was read; lock-free: a call that has not returned has seen the queue move on in every round |
| `QueueHybrid.StepKeeps` | src/algorithms/queue_ms_hybrid.h:34-71 | tail is the last node unless the holder of the lock has linked one and not stored it; the plain store to next overwrites no link, the plain store to tail never moves it backwards after a helping CAS |
| `QueueHybrid.RunMovesForward` | src/algorithms/queue_ms_hybrid.h:34-71 | over every run head and tail only move forward |
| `QueueHybrid.Fifo` | src/algorithms/queue_ms_hybrid.h:34-71 | over all interleavings: items dequeued so far followed by those in the queue are the items enqueued so far, in order |
| `QueueHybrid.QueueHybrid.Add` | src/algorithms/queue_ms_hybrid.h:34-43 | exactly one step of the call enqueues the item; the lock is released; it waits only while the lock is seen held |
| `QueueHybrid.QueueHybrid.Remove` | src/algorithms/queue_ms_hybrid.h:45-71 | exactly one step dequeues the item returned, or the queue was empty at a moment of the call; lock-free: a call that has not returned has seen the queue move on in every round |
| `QueueLB.StepKeeps` | src/algorithms/queue_ms_lb.h:34-60 | the same specification with a third relation of head and tail; no step of one lock's holder disturbs the other's |
| `QueueLB.HeadAheadOnlyUnderLock` | src/algorithms/queue_ms_lb.h:34-60 | head can be one node ahead of tail, only while the tail lock is held, and the queue is empty then |
| `QueueLB.HeadGetsAhead` | src/algorithms/queue_ms_lb.h:38-56 | and a run in which it is |
| `QueueLB.Fifo` | src/algorithms/queue_ms_lb.h:34-60 | over all interleavings: items dequeued so far followed by those in the queue are the items enqueued so far, in order |
| `QueueLB.QueueLB.Add` | src/algorithms/queue_ms_lb.h:34-43 | exactly one step of the call enqueues the item; the lock is released; it waits only while the tail lock is seen held |
| `QueueLB.QueueLB.Remove` | src/algorithms/queue_ms_lb.h:45-60 | exactly one step of the call dequeues the item returned, or the queue was empty at a moment of the call; the lock is released; it waits only while the head lock is seen held |
| `ArrayMapOptik.StepKeeps` | src/algorithms/array_map_optik.h:40-104 | non-zero keys are unique in every reachable state; the set changes only by the two writes of a key, by one pair |
| `ArrayMapOptik.RunKeeps` | src/algorithms/array_map_optik.h:40-104 | the same for every state of every run, with what versions guarantee from any state to any later one |
| `ArrayMapOptik.ValidatedHit` | src/algorithms/array_map_optik.h:44-50 | a hit with unchanged version was in the map at every moment between the two reads of the version |
| `ArrayMapOptik.StaysInSlot` | src/algorithms/array_map_optik.h:45-46 | a key cannot change slots without a moment at which it is absent |
| `ArrayMapOptik.ScanMisses` | src/algorithms/array_map_optik.h:45-53 | a scan that validates nothing and misses proves a moment of absence |
| `ArrayMapOptik.ScanStands` | src/algorithms/array_map_optik.h:63-74 | with the lock taken at the version read before the scan, all that the scan has read holds at once |
| `ArrayMapOptik.VersionMoves` | src/algorithms/array_map_optik.h:44-50 | a validation that fails, or a locked version, means that the lock was held at a moment in between |
| `ArrayMapOptik.ArrayMap.Search` | src/algorithms/array_map_optik.h:40-54 | a hit was in the map throughout an interval of the call, a miss was right at a moment of it; it goes into another round only after the lock was held at a moment of the call |
| `ArrayMapOptik.ArrayMap.Insert` | src/algorithms/array_map_optik.h:56-83 | 1 exactly if one step added the pair; 0 only if the key was there, or the map was full without it, at a moment of the call; it goes into another round only after the lock was held at a moment of the call |
| `ArrayMapOptik.ArrayMap.Remove` | src/algorithms/array_map_optik.h:85-104 | returns the value of the pair one step of the call removed, or 0 with the key absent at a moment of the scan; it goes into another round only after the lock was held at a moment of the call |
| `JavaMapModel.MaskIsRemainder` | src/algorithms/hashtable_java.h:98-99 | masking with a power of two less one is the remainder, for negative hash values too |
| `JavaMapModel.BucketSplits` | src/algorithms/hashtable_java.h:254-262 | the old index of a key is its new one reduced to the old capacity, so that distinct old buckets never write the same new bucket |
| `JavaMapModel.SplitsIffPowerOfTwo` | src/algorithms/hashtable_java.h:250-262 | hash values that meet in a bucket of the doubled table come from the same old bucket, for all of them, if and only if the capacity is a power of two |
| `JavaMapModel.ListingIs` | src/algorithms/hashtable_java.h:184-194 | following the pointers of a well-formed table a reader meets exactly the listed nodes |
| `JavaMapModel.LacksIff` | src/algorithms/hashtable_java.h:98-109 | a key is in the table exactly if it is in the chain of its bucket |
| `JavaMapModel.ContentsFunctional` | src/algorithms/hashtable_java.h:98-109 | a well-formed table binds a key to one value |
| `JavaRehash.FindLastRun` | src/algorithms/hashtable_java.h:265-276 | finds where the longest tail begins that goes to one new bucket |
| `JavaRehashMeaning.RunIsLongest` | src/algorithms/hashtable_java.h:265-276 | from there on all nodes of the chain have one new index, and the node before has another |
| `JavaRehash.CopyPrefix` | src/algorithms/hashtable_java.h:278-287 | makes one copy of each node before that tail, in order, each in front of its new bucket |
| `JavaRehash.Rehash` | src/algorithms/hashtable_java.h:244-295 | for any capacity: the nodes and the table are those of the moves of the old buckets one after the other, each storing its last run over what the bucket holds, and of the new node last |
| `JavaRehashMeaning.MovedHolds` | src/algorithms/hashtable_java.h:264-287 | a new bucket holds exactly the pairs of the old chain whose new index it is |
| `JavaRehashMeaning.DoneIsOk` | src/algorithms/hashtable_java.h:257-288 | after all buckets are moved the new table is well formed: keys distinct, each in its masked bucket |
| `JavaRehashMeaning.DoneKeepsContents` | src/algorithms/hashtable_java.h:257-288 | and holds exactly the old bindings |
| `JavaRehashMeaning.DoubledIsRight` | src/algorithms/hashtable_java.h:244-295 | with a power of two as capacity: a well-formed table of twice the size with the old bindings and the new pair; no old node is written, the tails are shared unmodified, and the only new nodes are one copy for each node before them and the new node |
| `JavaRehashMeaning.OtherCapacitiesLose` | src/algorithms/hashtable_java.h:257-288 | for every other capacity and every hash seed there is a well-formed table with two one-node chains from which the rehash loses a key, whatever pair is being inserted |
| `JavaRehashMeaning.SixBucketsLose` | src/algorithms/hashtable_java.h:257-288 | such a table with six buckets: of the keys 0 and 4 the rehash loses 0 |
| `JavaRehashMeaning.KeepsBindingsIffPowerOfTwo` | src/algorithms/hashtable_java.h:244-295 | the rehash keeps the bindings of every well-formed table of a capacity and adds the new pair if and only if the capacity is a power of two |
| `JavaMapSteps.StepInv` | src/algorithms/hashtable_java.h:64-177 | only the published segment can be unlocked; its table is well formed; its size is the number of its elements and below the limit |
| `JavaMapSteps.StepEffect` | src/algorithms/hashtable_java.h:64-177 | the set changes only when a node is appended or unlinked or a grown segment published, by one pair |
| `JavaMapSteps.LockExcludes` | src/algorithms/hashtable_java.h:82-91 | while a thread holds the segment's lock nobody else can take a step |
| `JavaMapSteps.StepLeads` | src/algorithms/hashtable_java.h:188-193 | what a reader is on its way to stays ahead of it through every step, rehash included, unless the step removes the key |
| `JavaMapSteps.LimitGrows` | src/aux/conc_hashmap_segment.h:36-44 | with a load factor of at least one a doubled segment has a larger limit |
| `JavaMap.OnlyPublishedIsLocked` | src/algorithms/hashtable_java.h:82-91 | in every reachable state the lock that a thread can win is that of the published segment, whose size is then below the limit |
| `JavaMap.RunGrows` | src/algorithms/hashtable_java.h:64-196 | the invariant holds in every state of every run |
| `JavaMap.BucketSawLive` | src/algorithms/hashtable_java.h:181-186 | what a reader finds in a bucket was in the published table at a moment of the call, even if the segment has been replaced |
| `JavaMap.AheadStays` | src/algorithms/hashtable_java.h:188-193 | a reader either has the key ahead of it or there was a moment without it, whatever happens while it waits |
| `JavaMap.Segments.Search` | src/algorithms/hashtable_java.h:179-196 | a hit was bound and a miss absent at a moment of the call, on a replaced table too; undisturbed the walk ends within one step more than the bucket has nodes |
| `JavaMap.Segments.LockSegment` | src/algorithms/hashtable_java.h:82-91 | the lock won is that of the published segment; it is not won only if at a moment of each attempt the lock of what was the published segment was taken or retired |
| `JavaMap.Segments.Grow` | src/algorithms/hashtable_java.h:112-116 | a rehash adds the new pair by its one publishing store; the old segment keeps its table and its lock is retired |
| `JavaMap.Segments.Insert` | src/algorithms/hashtable_java.h:64-125 | 1 exactly if one step of the call added the pair; 0 only if the key was bound at a moment of the call; a call that begins when the segment is unlocked, that nobody disturbs and that may walk the bucket to its end returns, and leaves it unlocked |
| `JavaMap.Segments.Remove` | src/algorithms/hashtable_java.h:127-177 | returns the value of the pair one step of the call removed, or 0 with the key absent at a moment of the call; a call that begins when the segment is unlocked, that nobody disturbs and that may walk the bucket to its end returns, and leaves it unlocked |
| `McsLock.StepInv` | include/mcs.h:128-173 | every step of any thread keeps the queue invariant |
| `McsLock.RunInv` | include/mcs.h:114-173 | so every state of every run has it |
| `McsLock.MutualExclusion` | include/mcs.h:128-173 | at most one thread has the lock |
| `McsLock.WakeReachesWaiter` | include/mcs.h:171 | the wake-up store always follows its receiver's own waiting = 1 and lets it go |
| `McsLock.FailedCasHasSuccessor` | include/mcs.h:159-170 | a holder whose CAS fails has a successor, which has linked itself or is about to |
| `McsLock.GrantedInOrder` | include/mcs.h:134-147 | in every run the lock has been granted in the order of the tail swaps, and never by a step of another thread |
| `McsLock.McsLock.Lock` | include/mcs.h:128-147 | on return the thread is the first of the queue and has the lock; it only waits after it has found somebody queued before it and its wake-up not given |
| `McsLock.McsLock.TryLock` | include/mcs.h:115-126 | it succeeds only on an empty queue, fails only if somebody was queued at a moment of the call, and then leaves the thread outside |
| `McsLock.McsLock.Unlock` | include/mcs.h:150-173 | exactly one step of the call releases: it leaves an empty queue or lets the next thread in line go; it only waits while somebody is queued behind who has not linked itself |

## Left out

- Termination of waiting under contention: fairness of locks and schedulers. The bounds described above stand for "the call has returned in this run"; what is proved of calls that have not is why they have not.
- Weak memory: steps are sequentially consistent; barriers, prefetches, back-off, padding and cache lines are not modelled.
- Memory reclamation: a fresh node never has the address of a node somebody can still reach, and a node appears in memory with the step that publishes it. A node that its inserter frees because it was never published is private to the call: the Harris insert keeps track of it in a variable, and in the optimised list, where every failed CAS frees the new node, it is left out.
- LL_GLOBAL_LOCK: the per-node-lock configuration is modelled. The read-only-fail switches are constants of the model where the code has both branches.
- Keys: client keys lie strictly between the sentinel keys, are integers and, in the array map, are not 0, which marks an empty slot. Values are integers, and 0 doubles as "absent" as in the code.
- Version numbers and other integer widths: versions are unbounded naturals; 64-bit wrap-around of OPTIK versions and 32-bit wrap-around of the segment size are not modelled. The load factor is a natural number of at least one.
- OPTIK variants: ticket and separate-word locks, and `optik_lock_version`, `optik_trylock_vdelete` and the back-off forms.
- PughList.PughList.Remove: does not claim that an early "absent" answer given with `blind` set is right at a moment of the call, because it can be wrong.
- JavaMapModel.MaskIsRemainder: hash values are unbounded integers shifted and masked in two's complement; the conversion of the shifted key to int changes no masked bit for capacities up to 2^31 and is left out.
- JavaMap.Segments.constructor: takes powers of two as capacities; what happens to others is shown for the rehash alone.
- JavaMap.Segments.Insert: the nodes and the table of a rehash become visible with the publishing store; they are private until then. Prefetching walks are left out.
- HerlihySkipList.SkipList.Insert: the height drawn at random is a parameter in 1..levelmax; the fixed length 64 of the local arrays is levelmax here. The same holds for the sequential skip list with length 32.
- McsLock.McsLock.Lock: the model has one lock; the code has one queue node per thread for all locks, so a thread that holds one MCS lock must not queue for another.
- Length and count operations, destructors, statistics and latency macros: single unsynchronised passes or no logic.
- Fraser's and the lock-free and OPTIK skip lists, the other lists, stacks and hash tables, CLH and other locks, test drivers and scripts.
