# Verified model of the Varnish module collection

This project models the data structures and the state machines of the Varnish
module collection and proves what they promise. It has six parts.

* **Trees** (`src/vtree.h`). The red-black tree is a class whose nodes carry left,
  right, parent and colour fields; rotations, both fix-up loops, removal by
  relinking and the parent-pointer walks write those fields in place. A ghost tree
  and a zipper (`Ctx`) name the focus of each step. The operations refine the sorted
  in-order sequence of *node identities*, so keys are never copied. The top-down
  splay tree is modelled the same way, with a middle tree and two spines; its
  operations compute the trees and count the rounds of pure functions, whose amortised
  cost is proved in `SplayCost`.
* **Throttle** (`src/vmod_vsthrottle.c`). The token bucket is a pure step function;
  runs, the rate bound and the simulation between a collecting and a never
  collecting throttle are lemmas about it. `ThrottleAnswers` tells the answers from
  the limit, the period, the block and the times of the calls alone, and
  `ThrottleSchedule` which calls make the throttle forget a bucket. `Throttle.Partition` is the
  imperative layer: buckets updated in place, found through the red-black tree, collected
  by deletion during traversal. `Vsthrottle.Vsthrottle` is sixteen of them with
  disjoint footprints; a call on it is one step of the pure system.
* **xkey index** (`src/vmod_xkey.c`). Two dictionaries of heads, tag records linked
  into two lists, three bounded pools. One ghost sequence of entries (record, object,
  digest) in the order of tagging explains every list; purges are compared with a
  linear scan of that sequence.
* **Cookies** (`src/vmod_cookie.c`). The lenient scanner of the Cookie header
  (section 4.2.1 of RFC 6265), the ordered store, the list filters and the printer.
* **Saint mode** (`src/vmod_saintmode.c`). The lazily expired blacklist against the
  full history of blacklisted entries.
* **Header table** (`src/vmod_header.c`). In-place compaction of two parallel arrays,
  and the copy that appends to the table it is walking. Names are compared without
  regard to case, as in section 3.2 of RFC 7230.

Conventions. Strings are the characters before the terminating NUL. `double` is
`real` and a cast to `long` is the floor. Clocks never go backwards, limits are not
negative and periods are positive. A digest is the number that an uninterpreted hash
gives to a message of bytes; `ThrottleDigest` shows that it determines the rule of a
bucket unless two of the messages sent collide. `DigestOrder` shows that comparing
byte strings with memcmp and comparing their big-endian numbers is the same order.
Workspace allocation may fail at any point; a failure sets `Workspace.overflow` for
good, so "no failure happened" is `!ws.overflow` at the end. Pointer keys of the
object tree are the object references themselves.

Where the code and its documentation differ, the code is modelled:

* `remaining()` credits tokens without moving `last_used`. The documented rate then
  fails for every limit of two or more: `ThrottleRuns.RemainingBreaksRate` gives the
  run on one bucket, `ThrottleCalls.CallsBreakRate` the list of calls, and
  `ThrottleCalls.KeyWithinRateExactly` says that over all runs of calls the rate holds
  exactly for limits up to one. Runs of `is_denied` and `blocked` always keep it.
* Garbage collection forgets a pending block that outlasts the idle time of its
  bucket, against the documented "always deny for that length of time".
  `ThrottleCalls.BlockForgotten` gives the list of calls, and
  `ThrottleCalls.KeyInvisibleExactly` the exact condition on the rule of a key under
  which no run of calls shows it.
* A hard `purge` is documented to return a number of objects; it counts index
  entries. `XkeyVmod.PurgeTaggedTwice` makes an index on which they differ, and
  `XkeyPurge.PurgeCountsObjectsExactly` says on which tokens and entries they agree.
* `is_healthy()` with a threshold of 0 answers false in a client transaction, while a
  threshold of 0 is documented to disable saint mode, as it does for the director.
  `SaintMode.ThresholdZero`: the two answers agree exactly for other thresholds.
* `cookie.parse` is documented to run clean() first. An empty header leaves the old
  store in place; `CookieText.ParseCleans` says that this is the only exception.
* `header.copy` is documented to copy each header to the new one. A name copied onto
  itself finds the lines that it appends and fills the table:
  `HeaderTable.CopyOntoItself` is a table of three slots on which it does, and
  `HeaderTable.Copy` says exactly when a copy leaves one line for each match.

## Model

| member | source | states |
|---|---|---|
| RedBlackTree.RbTree.Insert | src/vtree.h:600-628 | An equal key: that node, which may be the given one, is returned and nothing changes. Otherwise exactly the new node joins the sorted sequence at its rank, every other node keeps its identity, all red-black and link invariants hold again, and the descent took at most 2 lg(n+1) steps. |
| RedBlackTree.RbTree.InsertColor | src/vtree.h:408-450 | From a tree with at most one red-red edge at the focus, the fix-up loop ends with a black root, no red-red edge, equal black heights and coherent parent links, the same nodes in the same order; the grandparent is never null. |
| RedBlackTree.RbTree.Remove | src/vtree.h:531-597 | Exactly the given node leaves the in-order sequence, no other node moves in it, the node set shrinks by that node, every invariant is restored, and the removed node is returned. |
| RedBlackTree.RbTree.RemoveColor | src/vtree.h:452-529 | From a tree that is one black short at the focus, the loop restores equal black heights without meeting a null sibling, and keeps nodes and order. |
| RedBlackTree.RbTree.RoundLeft | src/vtree.h:459-491 | One round on the left side either ends the shortage or moves it one level up, with all links coherent. |
| RedBlackTree.RbTree.RoundRight | src/vtree.h:492-525 | The mirror of RoundLeft. |
| RedBlackTree.RbTree.RotateLeft | src/vtree.h:342-360 | A rotation at the focus turns the ghost tree by one step; links stay coherent and the order stays the same. |
| RedBlackTree.RbTree.RotateRight | src/vtree.h:362-380 | The mirror of RotateLeft. |
| RedBlackLinks.RotateLeftResult | src/vtree.h:342-360 | The nine pointer writes of a left rotation, seen as a change of the store, are exactly one tree rotation at the focus, for every context. |
| RedBlackLinks.SpliceResult | src/vtree.h:580-591 | Bypassing a node with at most one child removes it from the tree and leaves the rest of the store a tree. |
| RedBlackLinks.SubstituteResult | src/vtree.h:560-571 | Copying the link fields of the removed node into its successor puts the successor in its place in the tree. |
| RedBlackTree.RbTree.TakeOut | src/vtree.h:580-591 | The node with at most one child is unlinked; what follows it closes up. |
| RedBlackTree.RbTree.TakeOutInner | src/vtree.h:540-579 | A node with two children is replaced by its in-order successor by relinking, never by copying a key. |
| RedBlackBalance.RecolorBalance | src/vtree.h:417-422 | Recolouring an uncle moves a red-red edge two levels up and keeps every black height. |
| RedBlackBalance.RestructuredBalance | src/vtree.h:423-430 | The restructured subtree is red-black and fits where the old one was. |
| RedBlackBalance.SiblingExists | src/vtree.h:459-461 | A node that is one black short and not the root has a sibling. |
| RedBlackBalance.LiftSiblingBalance | src/vtree.h:484-490 | The last rotation of a removal pays back the missing black. |
| RedBlackBalance.SuccessorBalance | src/vtree.h:540-571 | Moving the successor up keeps the balance everywhere but at the hole it leaves. |
| RedBlackBalance.HeightBound | src/vtree.h:53-61 | 2 to the height is at most (n+1) squared in every red-black tree: the documented 2 lg(n+1). |
| RedBlackTree.RbTree.Find | src/vtree.h:630-646 | Agrees with a scan of the sorted sequence, in at most 2 lg(n+1) steps. |
| RedBlackTree.RbTree.NFind | src/vtree.h:648-667 | The first node not below the key, as a scan finds it, in at most 2 lg(n+1) steps. |
| RedBlackTree.RbTree.Next | src/vtree.h:670-689 | The next node in the order, or null. |
| RedBlackTree.RbTree.Prev | src/vtree.h:692-711 | The previous node in the order, or null. |
| RedBlackTree.RbTree.MinMax | src/vtree.h:713-726 | The first node in the order for a negative argument, the last otherwise, null when empty. |
| RedBlackSearch.ScanHit | src/vtree.h:636-645 | A node met by a descent is the one that a scan of the whole order finds. |
| RedBlackSearch.ScanMiss | src/vtree.h:636-667 | Where a descent falls off the tree is the rank of the key in the order. |
| RedBlackSearch.InsertSorted | src/vtree.h:617-625 | A node put where a descent fell off keeps the order sorted. |
| RedBlackShape.SuccessorInorder | src/vtree.h:540-571 | Replacing a node by the leftmost node right of it removes just that node from the order. |
| Splay.Head.Splay | src/vtree.h:209-242 | The loop keeps the in-order sequence and the nodes, ends, and leaves at the root the key, or the nearest node above it, or the nearest below. |
| Splay.Head.Loop | src/vtree.h:214-240 | The loop ends because the middle tree shrinks; the two spines hold exactly the smaller and the larger nodes it has passed, and its result and number of rounds are those of the recursive splay. |
| Splay.Head.StepDown | src/vtree.h:219-228 | One round below the root: its writes make of the linked structure what the pure round makes of the trees. |
| Splay.Head.StepUp | src/vtree.h:229-239 | The mirror of StepDown. |
| SplayRounds.DownPassed | src/vtree.h:219-228 | A round keeps the order, the nodes and the sides of the key, and stops at a nearest node or shrinks the middle tree. |
| SplayRounds.DownParted | src/vtree.h:219-228 | A round followed by the rest of the loop is the recursive splay of the middle tree. |
| Splay.Head.RotateRight | src/vtree.h:88-92 | A right rotation of the middle tree keeps order and nodes. |
| Splay.Head.LinkLeft | src/vtree.h:100-104 | The root and what is right of it move to the spine of larger nodes. |
| Splay.Head.Assemble | src/vtree.h:112-117 | Closing both spines around the root gives one tree again. |
| Splay.NearestHit | src/vtree.h:133-136 | After a splay the root decides whether the key is in the tree. |
| Splay.Head.Find | src/vtree.h:127-137 | The node with the key, or null exactly when no node has it; the order is unchanged. |
| Splay.Head.Insert | src/vtree.h:164-186 | The node that has the key already, which may be the given one, is returned with the order unchanged; otherwise the new node enters the sorted order at its place. |
| Splay.Head.Remove | src/vtree.h:188-207 | Exactly the node with the key leaves the order and the argument is returned; null and no change when no node has it. |
| Splay.Head.MinMax | src/vtree.h:244-278 | The first or the last node in the order comes to the root, as a splay for a key beyond it brings it; the order is unchanged. |
| Splay.Head.Next | src/vtree.h:139-151 | The successor in the order of a node in the tree, or null. |
| SplayCost.AllCovered | src/vtree.h:209-242 | The rounds of a splay are covered by what the potential of the tree loses, up to twice its rank and one round. |
| SplayCost.BalanceTheorem | src/vtree.h:48-51 | Any m operations (find, insert, remove) on an empty tree, n of them insertions, take at most m*(10 lg n + 2) rounds. |
| SplayCost.AccessTheorem | src/vtree.h:48-51 | Any m accesses to any tree of n nodes take at most n*2 lg n + m*(6 lg n + 1) rounds, so O(lg n) each once m is at least n. |
| ThrottleRuns.RateBound | src/vmod_vsthrottle.c:132-206 | Any run of is_denied, blocked and collections on one bucket admits at most limit + limit*T/period calls in its time T; with remaining() this holds for limits up to one. |
| ThrottleRuns.RateBoundInWindow | src/vmod_vsthrottle.c:132-206 | The same bound for every window inside a run that starts without a bucket. |
| ThrottleRuns.RemainingBreaksRate | src/vmod_vsthrottle.c:225-250 | For every limit of two or more, the run with remaining() that admits twice the limit in half a period. |
| ThrottleRuns.RateBoundExactly | src/vmod_vsthrottle.c:225-250 | With remaining() allowed, the rate bound holds for all runs exactly when the limit is at most one. |
| ThrottleRuns.RefillBounds | src/vmod_vsthrottle.c:132-142 | Refilling never loses tokens and never exceeds the capacity; it gives at most the tokens and the credit together, and the capacity or more than their sum less one. |
| ThrottleAnswers.RefillEarned | src/vmod_vsthrottle.c:132-142 | A refill adds the whole tokens earned at limit/period since the last use, up to the limit. |
| ThrottleAnswers.GrantsExactly | src/vmod_vsthrottle.c:174-196 | Of any number of calls of is_denied at one time, while no block is pending, the first ones are granted, exactly as many as there are tokens. |
| ThrottleAnswers.EmptiedThenAsked | src/vmod_vsthrottle.c:132-196 | After limit calls at u on a new key, of n calls at v exactly min(n, limit, floor(limit*(v-u)/period)) are granted, the first ones. |
| ThrottleAnswers.EmptiedThenRemaining | src/vmod_vsthrottle.c:240-249 | And remaining() at v answers min(limit, floor(limit*(v-u)/period)). |
| ThrottleAnswers.RemainingTwice | src/vmod_vsthrottle.c:240-249 | remaining() stores what it answers and is no use of the bucket: a second call earns once more from the last use. |
| ThrottleAnswers.BlockRenews | src/vmod_vsthrottle.c:182-185 | A call under a block is a use of the bucket: if no token was there, every later call before a whole token has been earned since that call is denied, also past the deadline. |
| ThrottleAnswers.BlockCosts | src/vmod_vsthrottle.c:182-194 | Of m calls at u under a block none is granted, but each takes a token while there is one; of n calls at v past the deadline as many are granted as were left or have been earned since u. |
| ThrottleAnswers.BlockCycle | src/vmod_vsthrottle.c:174-196 | A new key emptied at u: a call before a token is earned is denied and begins the block, blocked() tells the rest of it, and past it calls are granted for what has been earned since u. |
| ThrottleSchedule.CountAfter | src/vmod_vsthrottle.c:198-202 | After any run the counter of a partition is the number of its is_denied calls modulo 1000. |
| ThrottleSchedule.ForgottenExactly | src/vmod_vsthrottle.c:198-223 | A bucket that the calls are not on is gone after them exactly when one of them was a thousandth is_denied of its partition and came more than a period after its last use; else it is as it was. |
| ThrottleRuns.StepOk | src/vmod_vsthrottle.c:132-206 | Every step keeps 0 <= tokens <= capacity and last_used <= now, so the assertion on delta cannot fail. |
| ThrottleCollection.RunsAlike | src/vmod_vsthrottle.c:112-142 | A throttle that collects and one that never does, started alike, give the same answers to every run of a rule whose block fits. |
| ThrottleCollection.CollectionInvisibleExactly | src/vmod_vsthrottle.c:198-223 | Collection changes no answer of any run exactly for the rules with no block or with block*limit <= period*(limit-1). |
| ThrottleCollection.CollectionForgets | src/vmod_vsthrottle.c:209-223 | For every other rule with a positive limit, a run in which collection lets through a blocked call. |
| ThrottleCollection.DeniedIsNoOp | src/vmod_vsthrottle.c:174-204 | Without a block a denied call leaves the bucket untouched. |
| ThrottleCollection.PrunedRun | src/vmod_vsthrottle.c:174-204 | In the run of one bucket without a block, deleting the denied calls between the given collections changes no other answer. |
| ThrottleCollection.BlockHolds | src/vmod_vsthrottle.c:176-192 | Before its deadline an uncollected bucket denies every call, announces the remaining wait, and keeps the deadline. |
| ThrottleSystem.Projection | src/vmod_vsthrottle.c:158-250 | In every interleaving over the sixteen partitions the answers for one bucket are those of its own run with the collections its partition triggered. |
| ThrottleSystem.SystemRateBound | src/vmod_vsthrottle.c:158-223 | The rate bound for one key in any run of the whole throttle, with remaining() on the key for limits up to one. |
| ThrottleSystem.KeyCollectionInvisible | src/vmod_vsthrottle.c:198-223 | A key whose rule has a block that fits gets from the whole throttle the answers of one that never collects, whatever the other keys and their rules do. |
| ThrottleSystem.SystemCollectionInvisible | src/vmod_vsthrottle.c:198-223 | A run that calls only such keys is answered as a whole as if nothing were ever collected. |
| ThrottleSystem.CallKeepsOwnBucket | src/vmod_vsthrottle.c:168-223 | With a limit of at least one, the collection that a call triggers leaves the bucket of that call in the partition, in the state the call gave it. |
| ThrottleCalls.KeptProjection | src/vmod_vsthrottle.c:158-250 | Without collection the answers to one key are those of its own calls alone. |
| ThrottleCalls.ThinnedRun | src/vmod_vsthrottle.c:158-223 | Deleting the denied calls on a key without a block from a run of calls, which moves every later collection, changes neither the other answers to that key nor any answer to a key whose block fits. |
| ThrottleCalls.BlockForgotten | src/vmod_vsthrottle.c:198-223 | For every rule whose block does not fit, a list of calls on two keys of one partition, from the empty throttle, in which collection changes an answer. |
| ThrottleCalls.KeyInvisibleExactly | src/vmod_vsthrottle.c:198-223 | Over all runs of calls from the empty throttle, collection changes no answer to a key exactly when its rule has no block or block*limit <= period*(limit-1). |
| ThrottleCalls.CallsBreakRate | src/vmod_vsthrottle.c:225-250 | For every limit of two or more, a list of calls on an empty throttle that is granted twice the limit within half a period. |
| ThrottleCalls.KeyWithinRateExactly | src/vmod_vsthrottle.c:158-250 | Over all runs of calls from the empty throttle, a key keeps the rate bound exactly when its limit is at most one. |
| ThrottleSystem.SystemStep | src/vmod_vsthrottle.c:158-206 | Every call keeps each bucket sound and in the partition that its digest selects. |
| ThrottleSystem.PartStepFetched | src/vmod_vsthrottle.c:174-204 | A call is: fetch the bucket, work on it, put it back, count, collect when due. |
| Throttle.Bucket.CalcTokens | src/vmod_vsthrottle.c:132-142 | The in-place refill computes the pure refill and keeps the bucket sound: the capacity, or more than the tokens and the credit less one. |
| Throttle.Bucket.Take | src/vmod_vsthrottle.c:175-196 | The branches of is_denied on one bucket compute the pure decision and state; a call under a block is denied, renews last_used and keeps the deadline. |
| Throttle.Partition.GetBucket | src/vmod_vsthrottle.c:112-130 | The bucket of the digest, found through the tree or newly allocated full; all other buckets stay. |
| Throttle.Partition.RunGc | src/vmod_vsthrottle.c:208-223 | Deletion during traversal visits every bucket once in key order and drops exactly the expired ones. |
| Throttle.Partition.IsDenied | src/vmod_vsthrottle.c:168-206 | The imperative call refines one step of the pure partition: same answer, same buckets, same counter, collection included. |
| Throttle.Partition.Remaining | src/vmod_vsthrottle.c:240-249 | Refines the pure step of remaining. |
| Throttle.Partition.Blocked | src/vmod_vsthrottle.c:267-277 | Refines the pure step of blocked. |
| Vsthrottle.Vsthrottle.constructor | src/vmod_vsthrottle.c:311-323 | Sixteen partitions that share no object and hold no bucket. |
| Vsthrottle.Vsthrottle.IsDenied | src/vmod_vsthrottle.c:158-206 | A null key is denied; any other call changes only the partition of its digest and is one step of the whole system, with its answer. |
| Vsthrottle.Vsthrottle.Remaining | src/vmod_vsthrottle.c:225-250 | The same for remaining, with -1 for a null key. |
| Vsthrottle.Vsthrottle.Blocked | src/vmod_vsthrottle.c:252-277 | The same for blocked, with -1 for a null key. |
| Vsthrottle.Vsthrottle.OthersStay | src/vmod_vsthrottle.c:176-177 | A call on one partition leaves every other partition as it was. |
| ThrottleDigest.MessageInjective | src/vmod_vsthrottle.c:144-156 | The bytes fed to SHA256 determine key, limit, period and block although nothing separates the key from the fields. |
| ThrottleDigest.BucketIsRequest | src/vmod_vsthrottle.vcc:80-83 | Unless two of the messages sent collide, two calls share a bucket exactly when key, limit, period and block are the same. |
| ThrottleDigest.RuleOfDigest | src/vmod_vsthrottle.c:144-156 | Then the digest determines the rule: the limit, period and block read from the fields of any call that makes it. |
| ThrottleDigest.CollisionFreeExists | src/vmod_vsthrottle.c:144-156 | There is a hash of byte messages that collides on no set of them. |
| DigestOrder.MemcmpIsOrder | src/vmod_xkey.c:120-124 | Comparing digests with memcmp is comparing their big-endian numbers. |
| DigestOrder.PartOfFirstByte | src/vmod_vsthrottle.c:116-117 | The partition of a digest is its first byte masked with fifteen. |
| Xkey.Index.HashheadNew | src/vmod_xkey.c:136-152 | A head that is not live, with an empty list: the first of the pool when the counter is positive, and then the rest of the pool stays, else a new one; conservation holds. |
| Xkey.Index.HashheadDelete | src/vmod_xkey.c:154-170 | The head goes to the pool while there is room, else it is freed; the counter is the pool length and stays at most POOL_MAX. |
| Xkey.Index.OcheadNew | src/vmod_xkey.c:172-187 | As HashheadNew, for object heads. |
| Xkey.Index.OcheadDelete | src/vmod_xkey.c:189-205 | As HashheadDelete, for object heads. |
| Xkey.Index.OcNew | src/vmod_xkey.c:207-221 | As HashheadNew, for tag records. |
| Xkey.Index.OcDelete | src/vmod_xkey.c:223-238 | As HashheadDelete, for tag records. |
| Xkey.Index.HashtreeLookup | src/vmod_xkey.c:240-253 | Null exactly when no entry has the digest; otherwise the head that lists its records in order. |
| Xkey.Index.HashtreeInsert | src/vmod_xkey.c:255-271 | The head of the digest afterwards; on a duplicate it is the one already stored, the tree is unchanged and the spare head goes back. |
| Xkey.Index.OctreeLookup | src/vmod_xkey.c:273-285 | Null exactly when the object has no entry. |
| Xkey.Index.OctreeInsert | src/vmod_xkey.c:287-302 | As HashtreeInsert, for object heads. |
| Xkey.Index.Insert | src/vmod_xkey.c:304-327 | One entry is added at the end; every list on both sides is again the selection of its entries, records point to their head and object, no head is empty, pools are conserved. |
| Xkey.Index.RemoveRecord | src/vmod_xkey.c:340-352 | One round unlinks one record from both lists, retires an emptied digest head, and pools or frees the record. |
| Xkey.Index.Remove | src/vmod_xkey.c:329-356 | All entries of the object go, all others stay in order, and the whole index invariant holds. |
| XkeyIndex.AppendEntry | src/vmod_xkey.c:322-325 | Appending an entry appends its record to the list of its digest and of its object and to no other list. |
| XkeyIndex.DropByDigest | src/vmod_xkey.c:340-343 | Dropping one entry takes its record, and only it, off the list of its digest. |
| XkeyVmod.CbInsert | src/vmod_xkey.c:423-451 | The tags of an object are the tokens of its xkey and X-HashTwo headers, in order, one entry each. |
| XkeyVmod.CbRemove | src/vmod_xkey.c:453-465 | Removing an object leaves exactly the entries of the others; an unknown object changes nothing. |
| XkeyVmod.TaggedThenRemoved | src/vmod_xkey.c:304-356 | Indexing a new object and removing it restores the index, every list in its order, repeated tags included. |
| XkeyTokens.Tok | src/vmod_xkey.c:402-421 | Cuts off the next maximal blank-free piece; repeating it yields the token list. |
| XkeyTokens.TokensJoin | src/vmod_xkey.c:402-421 | The tokens of two strings joined by a blank are the tokens of both. |
| XkeyTokens.TokensAreBlankFree | src/vmod_xkey.c:402-421 | No token is empty or holds a blank. |
| XkeyTokens.TokenAlone | src/vmod_xkey.c:402-421 | A text without a blank is one token, the empty text none. |
| XkeyTags.TagsOfNamed | src/vmod_xkey.c:434-446 | A header carries the tokens of its value exactly when its name is xkey or X-HashTwo, in any letter case, and none otherwise. |
| XkeyTags.TagsOfNameless | src/vmod_xkey.c:434-440 | A header without a colon carries no tags. |
| XkeyTags.TagsOfJoin | src/vmod_xkey.c:433-450 | The tags of two lists of headers follow each other. |
| XkeyTags.PrefixHasColon | src/vmod_xkey.c:434-440 | A matching header has its first colon at the end of the matched name. |
| XkeyVmod.Purge | src/vmod_xkey.c:514-582 | The objects rearmed, in call order, are those a visit of each token's list rearms: hard, ttl, grace and keep become 0; softly, the ttl ends at now and grace and keep stay. The count is the number of calls; null and empty keys rearm nothing. |
| XkeyPurge.PurgeIsLinearScan | src/vmod_xkey.c:524-574 | The idle objects visited are exactly those a linear scan of the index finds. |
| XkeyPurge.PurgeCountsEntries | src/vmod_xkey.c:539-574 | The number of visits to idle objects is the sum over tokens of idle entries under the token. |
| XkeyPurge.PurgeCountsObjectsExactly | src/vmod_xkey.c:539-574 | That number is never below the number of objects, and equals it exactly when a token repeats only where every entry under it is busy and no two entries under the tokens share an idle object. |
| XkeyPurge.PurgeCountsTwice | src/vmod_xkey.c:539-574 | On entries that tag one idle object twice, a purge of both tags counts two for one object. |
| XkeyVmod.PurgeTaggedTwice | src/vmod_xkey.c:304-327 | Two insertions make that index, and the purge of it returns 2 for the one object. |
| XkeyPurge.PurgeCountsObjects | src/vmod_xkey.vcc:97-103 | With distinct tokens and no idle object under them twice it is the number of objects, as documented. |
| XkeyPurge.Visit | src/vmod_xkey.c:540-573 | One visit skips busy objects and, softly, expired ones, and rearms the others: hard, ttl, grace and keep become 0; softly, the ttl ends at now and grace and keep stay. |
| XkeyVmod.HardPurge | src/vmod_xkey.c:584-588 | Exactly the idle objects under a token are rearmed, with ttl, grace and keep 0 from their origin; the others keep their times, and the count is the number of idle entries. |
| XkeyVmod.SoftPurge | src/vmod_xkey.c:590-594 | Exactly the idle objects under a token whose ttl has not run out are rearmed: their ttl ends at now, grace and keep stay; each is counted once. |
| XkeyVmod.SoftPurgeAgain | src/vmod_xkey.c:543-574 | Repeating a soft purge at the same time returns 0. |
| CookieText.RoundTrip | src/vmod_cookie.c:90-132 | For every nonempty header, parsing the printed form of what was parsed gives the same ordered names and values, and nothing in the store is empty or holds a separator it may not. |
| CookieText.RoundTripExactly | src/vmod_cookie.c:322-353 | A store survives printing and parsing exactly when no name holds = or starts with space and no value holds ;. |
| CookieText.ParseMeans | src/vmod_cookie.c:90-132 | Names are kept in the order of their first effective occurrence, each with its last nonempty value. |
| CookieText.ParseCleans | src/vmod_cookie.c:98-106 | A parse leaves the cookies of the header alone exactly when the header is not empty or the store was. |
| CookieText.ScanIsClean | src/vmod_cookie.c:110-124 | No scanned name holds = or starts with space, no scanned value holds ;. |
| CookieText.ScanCuts | src/vmod_cookie.c:109-131 | The scanner skips space, cuts the name at the first = and the value at the next ; or at the end, and goes on behind it. |
| CookieText.ScanNothingLeft | src/vmod_cookie.c:111-113 | Without an = nothing is scanned. |
| CookieText.PrintAt | src/vmod_cookie.c:336-342 | Each printed field stands where the ones before it end, with one space before it unless it is the first, and the text ends with the last. |
| CookieText.ScanPrinted | src/vmod_cookie.c:336-342 | One printed cookie is scanned back as that cookie. |
| CookieStore.SetAllNames | src/vmod_cookie.c:146-185 | Setting pairs one after another adds each new name once, in order of first occurrence. |
| CookieStore.SetAllGet | src/vmod_cookie.c:146-185 | After setting pairs one after another a name has its last nonempty value. |
| CookieStore.SetThenGet | src/vmod_cookie.c:146-213 | set changes what get gives for that name and for no other; empty names and values are ignored. |
| CookieStore.SetBetween | src/vmod_cookie.c:159-168 | Setting a stored name changes its value where it stands. |
| CookieStore.SetAbsent | src/vmod_cookie.c:171-184 | Setting a new name puts it at the end. |
| CookieStore.DeleteBetween | src/vmod_cookie.c:225-228 | delete takes the cookie out from between its neighbours, which keep their order. |
| CookieStore.DeleteAbsent | src/vmod_cookie.c:225-228 | Deleting a name that is not stored changes nothing. |
| CookieStore.DeleteThenGet | src/vmod_cookie.c:216-229 | delete unsets that name and no other. |
| CookieStore.SetKeepsStored | src/vmod_cookie.c:146-185 | Names stay distinct and nothing empty is stored. |
| CookieStore.FiltersPartition | src/vmod_cookie.c:281-297 | filter and filter_except with one list split the store into two complementary parts, each in order. |
| CookieStore.SelectHas | src/vmod_cookie.c:281-297 | A filter keeps a cookie exactly by the presence of its name in the list. |
| Cookie.Jar.Parse | src/vmod_cookie.c:90-132 | Without workspace failure the store becomes the parse of the header; an empty or null header leaves it. |
| Cookie.Jar.Set | src/vmod_cookie.c:146-185 | Updates in place or appends, unless the workspace fails in this call, which leaves the store as it was. |
| Cookie.Jar.IsSet | src/vmod_cookie.c:187-199 | True exactly for a name in the store. |
| Cookie.Jar.Get | src/vmod_cookie.c:201-213 | The value, or null exactly when the name is not set. |
| Cookie.Jar.Delete | src/vmod_cookie.c:215-229 | Removes the cookie of that name only; the others keep their order. |
| Cookie.Jar.FilterCookies | src/vmod_cookie.c:244-306 | Removal during the walk leaves exactly the selected cookies, in order. |
| Cookie.Jar.FilterExcept | src/vmod_cookie.c:308-313 | Keeps exactly the listed names. |
| Cookie.Jar.Filter | src/vmod_cookie.c:315-320 | Keeps exactly the names not listed. |
| Cookie.Jar.GetString | src/vmod_cookie.c:322-353 | The printed store, or null only on workspace failure. |
| CookieList.NamesJoin | src/vmod_cookie.c:257-279 | The names of two lists joined by a comma are the names of both. |
| CookieList.NamesOfOne | src/vmod_cookie.c:257-279 | A list without a comma names what follows its leading space, if anything. |
| CookieList.ReadList | src/vmod_cookie.c:257-279 | The scanning loop ends on every string and yields the comma-separated pieces without leading space, empty ones dropped. |
| SaintMode.Director.IsDigestHealthy | src/vmod_saintmode.c:196-253 | While now never goes backwards: true exactly when no entry ever blacklisted and still in force has the digest and fewer than threshold such entries exist, in spite of lazy removal and early exit. |
| SaintMode.OneMoreEntry | src/vmod_saintmode.c:216-241 | One more entry: a timed out one changes no answer; one in force uses up one of the threshold and makes its own digest unhealthy. |
| SaintMode.Director.Walk | src/vmod_saintmode.c:216-235 | The walk removes expired entries up to the first match, keeps n_trouble equal to the list length, and finds a live match exactly when there is one. |
| SaintMode.LiveLater | src/vmod_saintmode.c:216-235 | What a walk removes was expired: at every later time the list and the list before it have the same live entries. |
| SaintMode.EarlierIsWrong | src/vmod_saintmode.c:220-225 | For any earlier time some list makes the next query answer wrongly. |
| SaintMode.AfterNoMatch | src/vmod_saintmode.c:216-235 | A walk without a match has seen everything, so n_trouble is the exact number of live entries. |
| SaintMode.Director.HealthyDirector | src/vmod_saintmode.c:256-286 | The shortcut for an empty list or threshold 0 gives what the query would, for thresholds above 0. |
| SaintMode.Director.IsHealthy | src/vmod_saintmode.c:288-307 | In a client transaction the query decides, also for threshold 0. |
| SaintMode.ThresholdZero | src/vmod_saintmode.c:244-307 | The answer of the list is that of a saint mode disabled at threshold 0 exactly when the threshold is not 0. |
| SaintMode.Director.Blacklist | src/vmod_saintmode.c:125-132 | The new entry goes to the front of the list and n_trouble grows by one. |
| SaintMode.Director.BlacklistCount | src/vmod_saintmode.c:183-194 | The length of the list: the number of entries still in force exactly when no entry of the list has timed out, else more, and never above the number ever blacklisted. |
| HeaderTable.Http.Unset | src/vmod_header.c:143-164 | Exactly the lines that are not null and do not match are left, in order, each with its own flags; the slots of the first line are untouched. |
| HeaderText.KeptHas | src/vmod_header.c:143-164 | After a removal no line matches, so a search with the same arguments finds none. |
| HeaderText.KeptTwice | src/vmod_header.c:143-164 | A second removal with the same arguments changes nothing. |
| HeaderTable.Http.FindHdr | src/vmod_header.c:130-141 | The first matching line, or 0 exactly when there is none. |
| HeaderTable.Http.MatchAt | src/vmod_header.c:92-124 | The name matches without regard to case and, with a regular expression, the content is not empty and is accepted. |
| HeaderTable.Http.Get | src/vmod_header.c:229-247 | The content of the first match without leading blanks, or null exactly when there is none. |
| HeaderTable.Http.Append | src/vmod_header.c:207-227 | One line at the end, unless the workspace or the table is full. |
| HeaderTable.Copy | src/vmod_header.c:174-190 | The walk ends though the table grows under it, and the old lines stay. Unless the workspace fails, one line per match is appended, in order, as far as they fit, and nothing else exactly when they fit and the copy does not find its own lines or they just fill the table; a copy that finds its own lines fills the table. |
| HeaderTable.CopyOntoItself | src/vmod_header.c:174-190 | A table of three slots with one line, copied onto its own name, ends with three. |
| HeaderText.WalkStep | src/vmod_header.c:181-188 | One round keeps the copy on course in every case: no match, appended, lost, or found among its own lines. |
| HeaderText.RegexMatches | src/vmod_header.c:92-124 | A regular expression is shown the text after the name and the spaces behind it, and a line with no such text never matches. |
| HeaderText.CopiedLine | src/vmod_header.c:174-190 | The copy of a line is the new name, one space and the value without the blanks in front of it. |
| HeaderText.KeptJoin | src/vmod_header.c:143-164 | A removal treats the two parts of a table one after the other. |
| HeaderText.CopiesJoin | src/vmod_header.c:174-190 | So does a copy. |
| Ascii.NameAtFront | src/vmod_header.c:71-83 | A line begins with a header name exactly when it was made with that name, up to case, whatever follows. |
| Ascii.SameLetter | src/vmod_header.c:71-83 | Characters are equal up to case exactly when they are equal or the two forms of one letter. |
| HeaderText.AppendedMatches | src/vmod_header.c:71-83 | An appended line is found under a name exactly when the names are equal up to case. |

## Left out

- xkey_cleanup and VCL load and discard: cleanup walks the lists through the wrong links and does not reset the pool counters, so nothing is claimed of it.
- The two trees of the xkey index are finite maps from key to head, the dictionary contract that `RedBlackTree` proves for the tree; embedding the tree nodes in the heads is not modelled.
- The tail queues of the sources are sequences; only their order and membership are modelled, not their link fields.
- EXP_Rearm: reduced to its effect on ttl, grace and keep; it does not call back into the index.
- The mutexes of the throttle: each call is one atomic step.
- ThrottleCollection.PrunedRun: speaks of one bucket between given collections; deleting a counted call moves them, and `ThrottleCalls.ThinnedRun` is the statement for runs of calls.
- SHA256: an uninterpreted hash; what a throttle does when two of its messages collide is not described.
- A double field of a digest message that holds an infinity or a NaN is read by the formula for finite numbers.
- fini of the throttle, and its counter of loaded VCLs.
- Floating-point rounding, NaN, overflow of long, negative limits and periods that are not positive.
- A red-black node's key is fixed for its life. A node reused under another key is a new node here, and fields left stale in a removed node are not described.
- VRB_AUGMENT: an empty macro here.
- VSPLAY_FOREACH: first node and successor are modelled, their loop is not. The walk of VSPLAY_NEXT below the root comes after its splay and is not in the amortised cost.
- find_sm, status and the context checks of blacklist in saint mode: a lookup by backend and error logging.
- VRT_re_match, header_init_re: a regular expression is a predicate on strings.
- http_SetHeader and VRT_String: reduced to "one line, or lost when full".
- format_rfc1123 of the cookie module: date formatting.
- vmod_var, vmod_tcp, vmod_bodyaccess, vmod_softpurge: linear-list maps, socket options and thin code over foreign structures are not modelled.
