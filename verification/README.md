# A verified model of the ms-nfs41-client daemon

The daemon of this NFSv4.1/4.2 client for Windows keeps a name cache, returns
delegations, replays byte-range locks, copies sparse files, resolves paths and
translates ACLs and extended attributes. This project models those parts in
Dafny 4.11 and proves what they are for. `dafny verify dfyconfig.toml` checks
everything.

| file | what it models |
|---|---|
| `Lists.dfy` | optional values, bytes, and intrusive lists as sequences without duplicates |
| `AttrCache.dfy` | the reference-counted attribute pool of `daemon/name_cache.c` |
| `Forest.dfy`, `Renames.dfy` | the tree of name entries, every entry's place in it, and the order of the expiry list |
| `PlainMap.dfy` | the reference: an unbounded map from paths to bindings |
| `NameCache.dfy`, `NameCacheRuns.dfy` | the name cache and whole runs of its calls |
| `Delegation.dfy` | the delegation protocol of `daemon/delegation.c` as a state machine of lock-protected steps |
| `DelegationSafety.dfy`, `DelegationSteps.dfy` | its invariant, and the proof that every step keeps it |
| `DelegationChecks.dfy` | what its checks decide: when a return starts, and what it may remove |
| `DelegationRuns.dfy`, `DelegationLoop.dfy` | theorems over all runs, and bounds on the recovery loop of a return |
| `DelegationReturns.dfy`, `DelegationRegistration.dfy`, `DelegationWake.dfy` | three races of the protocol, each with the exact condition under which it is harmless |
| `OpenLocks.dfy` | the locks of one open, `daemon/lock.c`, and their replay |
| `SparseCopy.dfy` | listing and copying sparse files, `daemon/fsctl.c` |
| `PathLookup.dfy` | path resolution, `daemon/lookup.c` |
| `CpvParser.dfy`, `CpvPrinter.dfy` | the parser of ksh93 compound variables, `daemon/cpvparser1.c`, and a printer it inverts |
| `Acl.dfy` | NFSv4 ACLs as DACLs, `daemon/acl.c` |
| `EaList.dfy` | the packed list of extended attribute names, `daemon/ea.c` |

## How the model reads the code

**Name cache.** Entries are numbers into a pool. A ghost field gives every entry
its place (the entry on top of its tree, and a path), so that orphans that wait
on the expiry list are covered too. What the cache knows is the map `Names()`
from paths to a file handle or "negative". Each call runs under the exclusive
lock and is one atomic step; it is compared with the same step on a plain map.
The children of an entry are visited in any order. The preconditions are what
the code relies on without a check: rename paths are equal or neither is a
prefix of the other; the parent of a new entry is not itself the tail of the
expiry list when the pool is full; the name entry that delegreturn finds is off
the expiry list; a negative insert meets a name without children, and inserts go
under positive parents; inserting over a positive entry keeps its file id; the
root is not removed. A
delegation insert at the delegation limit is refused before anything changes,
so that it leaves a superseded binding in place: the plain map does nothing in
that step either.

**Delegations.** A step is one region under the client, open or delegation
lock, or one RPC result, and never more; a wait on a condition variable is a
step that is not enabled. The wait of a lock request for another reclaim of its
open has a program point of its own, because the code does not test again all
that it has tested before. Program points say where each thread is and whether
it owns a reference. In particular a new delegation is listed with the client
(`Register`), referenced (`TakeRef`) and linked to its open (`Adopt`) in three
steps, an open that passes the check of `nfs41_delegate_open` (`CheckOpen`) is
linked in a later one (`LinkOpen`), and either is put on the client's list of
opens last (`AddOpen`). The recovery loop and `delegation_remove` see only the
opens on that list. The latter unlists the delegation and unlinks the opens
under one lock; the model lets other threads in between, which only adds runs.
Delegations are named in the order of their grants, so that a freed one can be
told from a later one at the same address. The recovery scan of
`nfs41_client_delegation_recovery` walks the list of delegations without a
lock; the model takes its picks to be of listed delegations, so the memory
safety of that scan is assumed. `done`, the opens a recovery loop is through
with, is a history variable. Only safety is claimed: a bad session or a thread
that cannot be started leaves RETURNING for ever.

**Sparse files.** The server is one object: the source file, the destination,
and two functions that say which call fails and how much a COPY writes, so that
a statement for all servers is a statement for all such functions. SEEK for data
answers NXIO when no data is left, and the end of the file is a hole with the
end-of-file flag.

**Lookup.** A server is a function from a directory handle and a name to an
answer. The result slots are an array, and the directory of the next compound is
a reference into it, so that its overwriting is visible. `is_last_component`,
whose body is not part of this model, is taken to say that no component follows.

**Masks.** A 32-bit mask is the set of the numbers of its bits.

## Where a property turned out false

- A delegation can be freed under the thread that has just registered it,
  because it is listed before that thread takes its reference.
  `RegistrationSafeIff`: registration is safe in every run exactly if none of the
  five ways in which a return starts is let into that window; each of them alone
  is enough to go wrong. Reference counts stay exact all the same
  (`ReferencesAreCounted`).
- A return that meets no error can leave an open behind that depends on the
  delegation, because an open is linked before it is on the list that the
  recovery loop searches. `CleanReturnIff`: that cannot happen exactly if, when
  the loop begins, every open that depends on the delegation, or whose thread
  has passed the check, is on the list. `GrantCanLose`: it can happen to every
  granted delegation.
- A lock request that has waited for another reclaim of its open can read the
  stateid of a delegation that is no longer linked, because only do_close is
  tested after the wait. `WakeSafeIff`: no run does so exactly if reclaims do not
  fail or delegations are not unlinked from opens without a stateid; with both,
  `RequestCanFault` finds a run for every open that depends on a granted
  delegation.
- DELEGRETURN can unpin a different file: the record of whatever name is cached
  at the path. `OwnReleasedIff`: it releases its own file exactly if the path is
  not cached, or cached for that file.
- The count of a copy is not always cut to the destination: the sum of offset
  and count can overflow. `CutIff`: the copy stays within the destination exactly
  if the sum is a LONGLONG; `LongRangeIsNotCut` is a range on which it is not.
- Bytes outside the destination range are not always kept, because the end of
  the range is checked after a section has been copied and sections are not
  clipped. `OutsideKeptIff`: they are kept whatever they are exactly if the
  source has no data past the range.
- With fewer than seven operations a compound has room for no component, and a
  lookup answers with the root for every path. `TargetRightIff`: success and
  target are right on every server and path exactly from seven operations on.
- The parent that a lookup reports is wrong when a compound has room for one
  component only: its slot is that of the target. `ParentRightIff`: it is right
  on every server and path exactly if the session allows ten operations.
- With named attributes a GENERIC bit can add a right: `ACE4_GENERIC_WRITE` has
  no APPEND_DATA, and GENERIC_WRITE has. `GrantsTheSameIff` gives the masks on
  which no individual right is added.
- Two locks with the same id would make the flush of delegated locks send the
  same lock for ever. `FlushProgress`: a round makes progress exactly if no
  earlier lock has the id, which holds while the counter is below 2^30.
- LOCK followed by UNLOCK gives back the same locks exactly if the range was
  not held before; otherwise the older lock goes (`LockThenUnlock`). The ranges
  held are always given back.
- An EA name of more than 255 bytes is cut off. `FollowVisitsAll`: a reader
  finds the names of the directory exactly if all fit.
- A value of a compound variable that is not followed by white space takes in
  what follows: "(a='b')" reads as "b)" (`ParenthesisSticks`).
  `ParseInvertsPrintIff`: the parser gives back a printed list exactly if white
  space follows every value.
- Entries for "nobody" are left out of a DACL, which changes the decision for
  requesters they are for, and for nobody else (`SkippingIff`).
- The SID of an ACL entry is not always that of its own name: a name that goes
  on after a special one is taken for it, and "Users" or "Administrators"
  without a domain is taken for a group after an entry of the domain BUILTIN.
  `IntendedIff`: every entry gets the SID of its own name, whatever the identity
  mapper says, exactly if the list has neither.
- A session with fewer than four operations makes the number of components wrap
  (`FewComponentsIff`).

## Model

| member | source | states |
|---|---|---|
| `AttrCaches.AttrCache.Ref` | daemon/name_cache.c:190-197 | one more reference on a record in use; nothing else changes |
| `AttrCaches.AttrCache.Deref` | daemon/name_cache.c:199-209 | one reference less; the last one moves the record from the tree to the free list, which together keep partitioning the pool |
| `AttrCaches.AttrCache.FindOrCreate` | daemon/name_cache.c:277-313 | the one record of the file id, found or taken from the free list; fails exactly if there is none and the free list is empty |
| `AttrCaches.AttrCache.Update` | daemon/name_cache.c:315-407 | the record is refreshed and, if asked, marked delegated; the mark is never cleared here |
| `AttrCaches.AttrCache.Search` | daemon/name_cache.c:252-260 | the record found has the file id and references, and otherwise no record in use has the file id |
| `AttrCaches.LatestChangeKept` | daemon/name_cache.c:315-407 | after any replies the change attribute is that of the latest one that had it, and the record is valid again |
| `Forests.PlaceUnique` | daemon/name_cache.c:677-709 | no two entries have the same place in the tree |
| `Forests.UnlinkedAll` | daemon/name_cache.c:689-718 | unlinking all children takes exactly the subtree apart and leaves every other entry where it was |
| `Forests.AccessStep` | daemon/name_cache.c:756-772 | moving an entry and then its parents to the front keeps ancestors before descendants |
| `PlainMaps.NamesPruned` | daemon/name_cache.c:689-709 | taking a subtree apart forgets exactly the paths at and below it |
| `PlainMaps.NamesAttached` | daemon/name_cache.c:963-977 | linking an entry under a parent adds exactly its path |
| `PlainMaps.RenameMonotone` | daemon/name_cache.c:1440-1549 | a map that knows less still knows less after a rename |
| `Renames.RenameMovesSubtree` | daemon/name_cache.c:1484-1541 | after a rename dst/q is what src/q was for every q, src is negative with nothing below, and the rest is unchanged |
| `Renames.HookedIsShifted` | daemon/name_cache.c:1498-1541 | the four relinkings of a rename shift every place below src to dst |
| `Renames.ShiftedNames` | daemon/name_cache.c:1498-1541 | shifted places have the names of the renamed map |
| `Renames.ShiftedOrder` | daemon/name_cache.c:1498-1541 | the expiry order that the relinking breaks is restored by the end |
| `NameCaches.NameCache.constructor` | daemon/name_cache.c:1019-1085 | an empty cache meets the invariant |
| `NameCaches.NameCache.Unlink` | daemon/name_cache.c:689-709 | the subtree becomes single entries at the end of the expiry list, without attributes, and nothing outside changes |
| `NameCaches.NameCache.UnlinkChildren` | daemon/name_cache.c:711-718 | the same for everything below an entry, which itself stays |
| `NameCaches.NameCache.Accessed` | daemon/name_cache.c:756-772 | the entry and its parents come to the front of the expiry list and no ancestor ends up behind a descendant |
| `NameCaches.NameCache.EntryChanged` | daemon/name_cache.c:827-849 | reports a change exactly if the change attribute does not match, and otherwise advances it |
| `NameCaches.NameCache.EntryUpdate` | daemon/name_cache.c:783-825 | the entry gets the new binding, the right record with the new change attribute, and reference counts, or becomes negative; it fails exactly if a negative entry needs a record and none can be had; it leaves the expiry list exactly if its record is delegated |
| `NameCaches.NameCache.Lookup` | daemon/name_cache.c:915-961 | finds the entry of the path exactly if it is in the tree, with its parent, and tells a missing name from a missing parent |
| `NameCaches.NameCache.Invalidate` | daemon/name_cache.c:851-863 | flags the record, forgets exactly the paths at and below the entry and keeps every pin |
| `NameCaches.NameCache.EntryCreate` | daemon/name_cache.c:720-754 | an isolated entry; scavenging takes the tail of the list, only forgets, and fails exactly if the full pool has an empty list |
| `NameCaches.NameCache.FindOrCreate` | daemon/name_cache.c:979-1010 | the child of that name, new or found, still under its parent |
| `NameCaches.NameCache.TakeAttributes` | daemon/name_cache.c:797-803 | a negative entry gets the record of the file if and only if the file has one or one is free |
| `NameCaches.NameCache.Insert` | daemon/name_cache.c:1229-1320 | within the plain insert; with a cached parent, agreeing change info and room, it stores and equals the plain insert if and only if the name is negative, was positive, or a record can be had, and otherwise forgets the name; a contradicting change info forgets the parent and all below it; counts, pins and delists a delegation, and refuses it only at the limit or without a record |
| `NameCaches.NameCache.DelegReturn` | daemon/name_cache.c:1322-1378 | unpins the record of the name or of the file id, counts it off once, and lists the name again |
| `NameCaches.NameCache.CheckParent` | daemon/name_cache.c:827-863 | a contradicting change info forgets the directory and all below it; an agreeing one advances its change attribute and nothing else |
| `NameCaches.NameCache.Remove` | daemon/name_cache.c:1380-1438 | exactly the plain remove of a cached name, nothing for an unknown one, and the whole directory is forgotten if its change info contradicts |
| `NameCaches.NameCache.RemoveStale` | daemon/name_cache.c:1665-1688 | forgets exactly the path and all below it |
| `NameCaches.NameCache.Swap` | daemon/name_cache.c:1498-1529 | the relinking of a rename: source to the target's place, the target's old entry to the source's |
| `NameCaches.NameCache.Rename` | daemon/name_cache.c:1440-1549 | within the plain rename; what is left is known exactly in every case, unknown target directory, unknown source, either directory contradicted by its change info, or neither, unless an entry had to be scavenged |
| `NameCacheRuns.Perform` | daemon/name_cache.c:1229-1549 | any call keeps the invariant, stays within the plain map's step, is refused only at the delegation limit, and unpins only by delegreturn, which unpins exactly the file that it releases |
| `NameCacheRuns.OwnReleasedIff` | daemon/name_cache.c:1344-1357 | delegreturn releases the file it is about if and only if the path is not cached or cached for that file, and never two files |
| `NameCacheRuns.RecordedCache.constructor` | daemon/name_cache.c:1019-1085 | a run starts with an empty cache and an empty plain map |
| `NameCacheRuns.RecordedCache.Do` | daemon/name_cache.c:1229-1549 | over every run from the constructor the cache knows nothing that the plain map driven by the same calls does not |
| `NameCacheRuns.ReferencesConserved` | daemon/name_cache.c:150-209 | the reference counts add up to the names with attributes plus the counted delegations |
| `NameCacheRuns.DelegationBudget` | daemon/name_cache.c:1254-1318 | delegated records are at most the counted delegations, those at most the budget, and each is found by its file id |
| `NameCacheRuns.ScavengeTakesOne` | daemon/name_cache.c:728-744 | scavenging the tail removes no other listed entry |
| `DelegationSafety.RefsKept` | daemon/delegation.c:74-125 | every change that balances its references keeps ref_count equal to client, opens and holders |
| `DelegationSteps.DerefIsSafe` | daemon/delegation.c:82-90 | giving up a counted reference frees the delegation only after the client gave up its own |
| `DelegationSafety.OneReturnerKept` | daemon/delegation.c:485-544 | a return starts only when no other thread returns the delegation |
| `DelegationSafety.LoopsKept` | daemon/delegation.c:304-324 | an open the recovery loop is through with never needs the delegation again |
| `DelegationSafety.OneReclaimerKept` | daemon/delegation.c:546-614 | an open is reclaimed by one thread at a time |
| `DelegationSafety.WorksKept` | daemon/delegation.c:304-314 | an open that a thread works on stays alive, linked while it is reclaimed, and is taken up by a loop once |
| `DelegationSafety.OneWorkerKept` | daemon/open.c:275-299 | an open that is not yet listed is left to the thread that opens it |
| `DelegationSteps.StepIsLegal` | daemon/delegation.c:267-331 | every step of every thread meets the local rules |
| `DelegationSteps.StepKeepsInv` | daemon/delegation.c:94-948 | the whole invariant is inductive |
| `DelegationRuns.ReferencesAreCounted` | daemon/delegation.c:74-125 | in every run ref_count is exact and positive, and a freed delegation is linked, held and returned by nobody |
| `DelegationRuns.OneThreadReturns` | daemon/delegation.c:635-674 | in every run at most one thread returns a delegation |
| `DelegationRuns.StepForward` | daemon/delegation.c:267-331 | the status never moves back, and no name comes back |
| `DelegationRuns.GiveUpByReturner` | daemon/delegation.c:94-125 | only the returning thread gives up the client's reference |
| `DelegationRuns.ReturnedAtMostOnce` | daemon/delegation.c:485-948 | over every run each delegation is returned by one thread at most, once, and loses the client's reference at most once |
| `DelegationRuns.LockIdsIncrease` | daemon/lock.c:82-83 | in every run lock ids grow along the list of each open |
| `DelegationChecks.OpenCheckIff` | daemon/delegation.c:485-544 | under a granted delegation an open is handled locally if and only if the delegation is for writing or the open is compatible; otherwise the return starts, and during one it waits |
| `DelegationChecks.ReturnCheckIff` | daemon/delegation.c:635-674 | an operation starts the return of a granted delegation if and only if it writes or the delegation is for reading |
| `DelegationChecks.RecallCheckIff` | daemon/delegation.c:705-770 | the first CB_RECALL of a granted delegation starts its return, and every one is remembered |
| `DelegationChecks.UnneededIsUnused` | daemon/delegation.c:909-948 | only a delegation that no open and no thread uses is returned to make room |
| `DelegationChecks.RecoveryPickIff` | daemon/delegation.c:849-900 | in recovery a granted delegation is forgotten exactly if revoked, and returned exactly if only recalled |
| `DelegationChecks.WriteOutlivesOpens` | daemon/delegation.c:392-416 | over every run no open takes a write delegation away from GRANTED |
| `DelegationChecks.ReclaimIff` | daemon/delegation.c:586-607 | the loop goes on to the locks of an open if and only if the reclaim has left it a stateid and was not refused for good |
| `DelegationChecks.RemovedWhen` | daemon/delegation.c:316-331 | a delegation is removed only after DELEGRETURN has been answered, or if it was revoked |
| `DelegationChecks.UnlistedBy` | daemon/delegation.c:94-103 | a delegation leaves the client's list only by the thread that removes it |
| `DelegationChecks.NoneLinkedThen` | daemon/delegation.c:104-115 | the return passes on only when no listed open is linked |
| `DelegationChecks.UnlistedIsNotFound` | daemon/delegation.c:419-440 | a delegation off the list gets no new holder but the thread that registers it |
| `DelegationChecks.ListedWithState` | daemon/open.c:275-299 | in every run an open is listed with a stateid of its own or a delegation |
| `DelegationChecks.LocalLocksUnderWrite` | daemon/lock.c:88-110 | in every run locks that only the client knows are under write delegations |
| `DelegationChecks.LockIsAdded` | daemon/lock.c:72-110 | a granted lock is the one asked for, the latest of its open, delegated exactly if granted locally |
| `DelegationChecks.UnlockTakesOne` | daemon/lock.c:114-167 | an unlock takes off the one lock |
| `DelegationChecks.RecoverySteps` | daemon/recovery.c:255-274 | recovery gives an open its stateid, marks or clears a revoked delegation, and changes nothing else |
| `DelegationLoops.NothingNew` | daemon/delegation.c:142-155 | once a return has started no open comes to need the delegation but those whose thread had passed the check |
| `DelegationLoops.LateLinks` | daemon/open.c:255-270 | an open linked after the start has its own stateid and no lock, or its thread had passed the check |
| `DelegationLoops.LoopIsBounded` | daemon/delegation.c:304-314 | whatever other threads do, the recovery loop goes round at most once for each open that needed the delegation when it began |
| `DelegationLoops.NoNewLocalLock` | daemon/lock.c:88-110 | once a return has started no lock is granted locally under it |
| `DelegationLoops.SendsAreBounded` | daemon/delegation.c:218-263 | whatever other threads do, the loop sends at most one LOCK for each lock that was held only locally when it began |
| `DelegationReturns.SendingSeesNone` | daemon/delegation.c:158-173 | DELEGRETURN goes out after an error-free loop only when no listed open needs the delegation |
| `DelegationReturns.CleanReturnIff` | daemon/delegation.c:304-324 | a return without error is certain to leave no open that depends on the delegation if and only if all such opens, and those about to be linked, are listed when the loop begins |
| `DelegationReturns.GrantCanLose` | daemon/open.c:275-299 | from every state, every granted delegation has a run in which a clean return leaves an open behind |
| `DelegationRegistrations.OnlyStarters` | daemon/delegation.c:485-948 | only a conflicting open, an operation on the file, CB_RECALL, the return of unused delegations or recovery takes a delegation away from GRANTED |
| `DelegationRegistrations.CanFree` | daemon/delegation.c:361-368 | for each of the five a run in which the delegation is freed before the thread that registered it takes its reference |
| `DelegationRegistrations.RegistrationSafeIff` | daemon/delegation.c:361-368 | no run frees a delegation under its registration if and only if none of the five is let in between listing and reference |
| `DelegationWakes.StaysReady` | daemon/delegation.c:559-572 | unless reclaims fail and bare opens are unlinked, every step leaves a waiting request a stateid, a reclaim that will bring one, or its delegation |
| `DelegationWakes.RequestCanFault` | daemon/delegation.c:546-579 | from every state, a lock request on an open that depends on a granted delegation has a run in which it reads the stateid of no delegation |
| `DelegationWakes.WakeSafeIff` | daemon/delegation.c:559-579 | no run lets a woken request do so if and only if reclaims do not fail or delegations are not unlinked from opens without a stateid |
| `OpenLocks.NormalisedCovers` | daemon/lock.c:213-228 | the translated range has exactly the bytes asked for below the largest offset, and only ranges that reach it change |
| `OpenLocks.NormalisedTwice` | daemon/lock.c:213-228 | translating a range twice is translating it once |
| `OpenLocks.FlushProgress` | daemon/delegation.c:176-216 | a round of the flush takes exactly the lock that was sent off the list of delegated ones, if and only if no earlier lock has its id |
| `OpenLocks.WithoutFirstRanges` | daemon/lock.c:114-167 | an unlock removes one lock with the range if there is one |
| `OpenLocks.LockThenUnlock` | daemon/lock.c:379-415 | unlocking with the arguments of the lock restores the same locks exactly if the range was not held |
| `OpenLocks.LockThenUnlockRanges` | daemon/lock.c:379-415 | it always restores the ranges held |
| `OpenLocks.StateidStaysNewest` | daemon/lock.c:59-70 | in whatever order replies are handled the seqid never falls and ends as the largest seen, and a stateid in use is never exchanged for another |
| `OpenLocks.OpenLocks.Delegate` | daemon/lock.c:88-110 | a lock is granted locally exactly under a granted write delegation, with the next id |
| `OpenLocks.OpenLocks.Add` | daemon/lock.c:72-86 | a lock known to the server goes to the end of the list with the next id |
| `OpenLocks.OpenLocks.Lock` | daemon/lock.c:204-271 | exactly one lock, for exactly the bytes asked for, is added on success, and nothing changes otherwise |
| `OpenLocks.OpenLocks.UnlockDelegate` | daemon/lock.c:123-147 | a delegated lock is removed, one known to the server is reported, and a missing one too |
| `OpenLocks.OpenLocks.UnlockRemove` | daemon/lock.c:149-167 | the first lock with the range goes |
| `OpenLocks.UnlockAllRemoves` | daemon/lock.c:390-413 | the answers of the server do not influence which locks are removed |
| `OpenLocks.OpenLocks.Unlock` | daemon/lock.c:379-415 | each range takes off one lock, whatever the server answers; the stateid and the status that result |
| `OpenLocks.OpenLocks.Find` | daemon/delegation.c:176-198 | the first delegated lock, or none if there is none |
| `OpenLocks.OpenLocks.Settle` | daemon/delegation.c:201-216 | the first lock with the id is no longer delegated |
| `OpenLocks.OpenLocks.Flush` | daemon/delegation.c:218-263 | each delegated lock is sent once, in order, with its range and type and the right stateid, up to the first refusal |
| `SparseFiles.SectionsMaximal` | daemon/fsctl.c:98-180 | every section found is a maximal run of data |
| `SparseFiles.SectionsSeparated` | daemon/fsctl.c:98-180 | the sections are in order with gaps between them |
| `SparseFiles.SectionsComplete` | daemon/fsctl.c:98-180 | every data byte from the start on is in a section |
| `SparseFiles.UpToExact` | daemon/fsctl.c:208-216 | the sections listed are those that start at or before the end and at most one more |
| `SparseFiles.QuerySections` | daemon/fsctl.c:63-237 | the records are those sections, or exactly the first that fit, which is then reported |
| `SparseFiles.OverlayTwice` | daemon/fsctl.c:615-642 | two adjacent writes are one |
| `SparseFiles.CopyAll` | daemon/fsctl.c:615-642 | whatever positive amounts COPY writes, the file ends as after one CLONE of the section |
| `SparseFiles.Clone` | daemon/fsctl.c:643-654 | a section is overlaid at once or the file is untouched |
| `SparseFiles.SectionCopied` | daemon/fsctl.c:567-654 | copying the next section extends what has been copied to the end of that section |
| `SparseFiles.Duplicate` | daemon/fsctl.c:486-697 | on success every byte of the destination and its size are known; failure is an RPC failure and leaves the beginning of the copy, or the file as it was |
| `SparseFiles.RangeIsCopied` | daemon/fsctl.c:523-691 | the range reads like the source, holes as zeros |
| `SparseFiles.OutsideKeptIff` | daemon/fsctl.c:567-681 | bytes outside the range survive for every destination exactly if the source has no data past the range |
| `SparseFiles.SizeIsKept` | daemon/fsctl.c:850-878 | without such data the destination does not grow |
| `SparseFiles.CutIff` | daemon/fsctl.c:850-859 | the copy stays within the destination if and only if offset plus count does not overflow, and is then cut to no less than fits |
| `SparseFiles.LongRangeIsNotCut` | daemon/fsctl.c:850-859 | a range that is not cut to a file of ten bytes |
| `SparseFiles.HandleDuplicate` | daemon/fsctl.c:699-908 | what was copied, for the count as the code cuts it, and when the rest is untouched; the error cases |
| `PathLookups.FewComponentsIff` | daemon/lookup.c:308-321 | the components of a compound fit their slots exactly if the session allows four operations |
| `PathLookups.CompoundFits` | daemon/lookup.c:308-321 | every compound fits the session's limit, and two components fit exactly from ten operations on |
| `PathLookups.WalkOn` | daemon/lookup.c:342-403 | resolving a path in two parts is resolving it in one |
| `PathLookups.Resolver.LookupRpc` | daemon/lookup.c:129-178 | the slots hold the handles reached one at a time, read from the directory before its slot is overwritten |
| `PathLookups.Resolver.ReadAnswers` | daemon/lookup.c:248-305 | which slots are the target and its parent, and what goes into the name cache |
| `PathLookups.Resolver.ServerLookup` | daemon/lookup.c:192-306 | status and handles are those of resolving one at a time, except for a directory in slot 0 |
| `PathLookups.Resolver.Load` | daemon/lookup.c:323-340 | the next components, as many as fit |
| `PathLookups.Resolver.Run` | daemon/lookup.c:342-403 | the loop over compounds agrees with resolving one at a time, for every limit |
| `PathLookups.ServerLookupLoop` | daemon/lookup.c:342-403 | the same, and what it learns is what one-at-a-time resolution teaches |
| `PathLookups.TargetRightIff` | daemon/lookup.c:308-403 | success and target are right on every server and path exactly from seven operations on |
| `PathLookups.ParentRightIff` | daemon/lookup.c:239-303 | the reported parent is right on every server and path exactly from ten operations on |
| `PathLookups.StatusTells` | daemon/lookup.c:180-190 | the status tells success, a symlink, a referral, each server error and a missing name apart |
| `PathLookups.SeenIsTrue` | daemon/lookup.c:248-303 | every binding a lookup puts into the cache is what the server answers |
| `PathLookups.CacheLookup` | daemon/name_cache.c:915-961 | the longest prefix whose entries are all visible and positive, and whether a negative entry ended it |
| `PathLookups.Lookup` | daemon/lookup.c:468-554 | with a truthful cache, success, the error, target and parent are those of the server alone, which is not asked for a path that the cache shows, up to the parent below ten operations, and the cache stays truthful; below seven, the outcome of the cache or the root |
| `CpvParsers.ParsePair` | daemon/cpvparser1.c:154-367 | a successful call takes at least one character, and name and value are shorter than what was taken |
| `CpvParsers.Parser.constructor` | daemon/cpvparser1.c:83-108 | the cursor starts at the beginning |
| `CpvParsers.Parser.ReadHeader` | daemon/cpvparser1.c:119-152 | past the opening parenthesis, or the cursor stays |
| `CpvParsers.Parser.SkipBlank` | daemon/cpvparser1.c:170-187 | white space and comments are skipped |
| `CpvParsers.Parser.ReadName` | daemon/cpvparser1.c:202-244 | the name after any type words is in the buffer, in bounds |
| `CpvParsers.Parser.ReadValue` | daemon/cpvparser1.c:260-343 | the value with quotes and escapes resolved is in the buffer, in bounds |
| `CpvParsers.Parser.ParseNameVal` | daemon/cpvparser1.c:154-367 | the cursor moves past what was parsed, and stays on failure |
| `CpvPrinters.BlankFill` | daemon/cpvparser1.c:170-187 | any layout of white space and comments is skipped exactly |
| `CpvPrinters.TypesSkipped` | daemon/cpvparser1.c:218-243 | type words with options do not change the name |
| `CpvPrinters.KeywordIff` | daemon/cpvparser1.c:218-243 | the words that are taken for types |
| `CpvPrinters.PiecesRead` | daemon/cpvparser1.c:260-325 | a value in any mixture of bare, single-quoted and double-quoted pieces with escapes is read back, and what sticks to it is read on |
| `CpvPrinters.UnclosedQuote` | daemon/cpvparser1.c:327-342 | a quote that is not closed is an error |
| `CpvPrinters.NoHeader` | daemon/cpvparser1.c:119-152 | a text that does not begin with a parenthesis is refused |
| `CpvPrinters.NoMember` | daemon/cpvparser1.c:189-258 | a name that does not begin with a letter, or has no value, is refused |
| `CpvPrinters.ParsePrinted` | daemon/cpvparser1.c:154-367 | one printed member is read back whatever its layout |
| `CpvPrinters.ParseGlued` | daemon/cpvparser1.c:302-325 | a printed member that something sticks to is not read back |
| `CpvPrinters.ParseInvertsPrintIff` | daemon/cpvparser1.c:119-367 | on every list and every layout the parser inverts the printer if and only if white space follows every value |
| `CpvPrinters.ParenthesisSticks` | daemon/cpvparser1.c:302-325 | a closing parenthesis right after a quote becomes part of the value |
| `Acls.MapMask` | daemon/acl.c:814-966 | the individual rights are carried over bit by bit, DELETE_CHILD only on directories, and the generic ones when all their rights are there |
| `Acls.GrantsTheSameIff` | daemon/acl.c:814-966 | the Windows mask grants exactly the individual rights of the NFSv4 mask, generic rights spelled out, if and only if the mask is faithful |
| `Acls.GenericWriteAddsAppend` | daemon/acl.c:891-904 | a mask on which it does not |
| `Acls.FlagsRoundTrip` | daemon/acl.c:652-688 | the two flag mappings invert each other on the flags both sides know, and set no others |
| `Acls.ResolveAll` | daemon/acl.c:171-246 | a SID for every entry that is not skipped, in order |
| `Acls.Convert` | daemon/acl.c:143-335 | the DACL has the kept entries in order, each with the SID that was found for it; the error cases |
| `Acls.SplitName` | daemon/acl.c:76-88 | a name with a domain is split at its first '@' |
| `Acls.WellKnown` | daemon/acl.c:98-141 | OWNER, GROUP, EVERYONE and the others, with or without a domain, get their well-known SIDs whatever the identity mapper says, and exactly "nobody" is skipped |
| `Acls.SpecialIff` | daemon/acl.c:98-141 | the comparison of prefixes recognises the special principals exactly on names that do not go on after one |
| `Acls.IntendedIff` | daemon/acl.c:171-241 | for every identity mapper each entry gets the SID that its own name determines, if and only if no name goes on after a special one and no user is taken for a group by a domain left behind |
| `Acls.ResolvedDecides` | daemon/acl.c:171-316 | with the SIDs found, the DACL decides every individual right as the NFSv4 ACL does, for everybody but "nobody" |
| `Acls.ConvertedDecides` | daemon/acl.c:143-335 | for such lists it decides as the NFSv4 ACL does with the principals that its names stand for |
| `Acls.ExpandedDecides` | daemon/acl.c:814-966 | the same with generic rights spelled out, if the masks are faithful |
| `Acls.SkippingIff` | daemon/acl.c:184-199 | leaving out "nobody" entries is harmless, for any right on files and directories, for exactly the requesters who are not "nobody" |
| `EaLists.CalculateLength` | daemon/ea.c:393-417 | the sum of the aligned record sizes of the Windows EAs |
| `EaLists.ListedIff` | daemon/ea.c:403-408 | exactly the names whose form with the prefix is in the directory are listed |
| `EaLists.RecordsAligned` | daemon/ea.c:390-391 | every record starts at a multiple of four bytes |
| `EaLists.TruncatedLength` | daemon/ea.c:443-447 | a name that is too long is cut to its length modulo 256 |
| `EaLists.PrefixSpelled` | daemon/ea.c:54-55 | the prefix is "win32.ea." |
| `EaLists.Populate` | daemon/ea.c:419-472 | the buffer holds exactly the records of the Windows EAs, the last one leading nowhere |
| `EaLists.FollowVisitsAll` | daemon/ea.c:419-472 | following NextEntryOffset visits the Windows EAs in order, prefix stripped, exactly if the names fit |
| `EaLists.GetEaList` | daemon/ea.c:474-519 | no list exactly if there are no Windows EAs; otherwise a list that reads back as them |

## Left out

- Expiry times: time only hides entries, so the name cache proofs speak of entries whether expired or not, and `PathLookups` of the visible ones.
- Attribute values other than the file id and the change attribute, numlinks, case-insensitive comparison and the state "cache disabled".
- DelegationRuns.LockIdsIncrease: lock ids are unbounded in the state machine; the class in `OpenLocks.dfy` has the 30-bit field and says when ids stay in order.
- DelegationReturns.CleanReturnIff: do_close is never cleared in the model. The code clears it in recovery after a server restart, and in handle_close for a file that is removed (daemon/open.c:1432 and 1447), where the open is still linked and listed for a moment.
- DelegationRuns.ReferencesAreCounted: the recovery scan at daemon/delegation.c:875 takes no lock, and its picks are assumed to be of listed delegations.
- New delegations in recovery: daemon/recovery.c:275-277 can grant one to an open that is already listed; `RecoverOpen` only gives the open its stateid.
- Liveness of the delegation protocol: error paths leave RETURNING for ever.
- OpenLocks.OpenLocks.Flush: nothing else changes the locks meanwhile; the interleavings are those of `Delegation.dfy`.
- SparseFiles.QuerySections: the answer for servers without SEEK is left out.
- SparseFiles.HandleDuplicate: attribute requests that fail are left out.
- PathLookups.Lookup: FILE_NOT_FOUND and PATH_NOT_FOUND are told apart only for a missing last component, because the code's answer for others depends on where compounds end; referrals are not followed.
- PathLookups.ServerLookupLoop: sessions that allow fewer than four operations, on which `FewComponentsIff` shows the slots overrun, are left out.
- CpvParsers.Parser.ParseNameVal: running out of memory is left out, and characters above 126 are neither letters nor white space.
- Acls.Convert: memory and size of the DACL are left out, and the lookup of account names is a parameter.
- ACLs in the other direction, from a DACL to NFSv4.
- EaLists.GetEaList: the READDIR buffer is a list of entries with their offsets; sums stay below 2^32.
- RPC transport, XDR, session slots, mounting, referrals, ID mapping, layouts, upcall parsing and daemon startup: marshalling or calls to code outside this model.
