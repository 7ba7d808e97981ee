# Verification model of the YAHFA / xhook hooking library

This project models the native hooking code of the library and proves what it is built on:

* the red-black tree and the top-down splay tree of `tree.h`, as in-place algorithms on linked nodes (`RbHeap`,
  `RbBalance`, `RbInsert`, `RbRemove`, `RbScan`, `Splay`; keys compare as in `Strcmp`);
* the refresh engine of `xh_core.c` on top of the real tree and the real queues (`XhRules`, `XhMaps`, `XhQueue`,
  `XhCore`), and its threads as a state machine of interleaved steps (`Async`, `AsyncServed`);
* the ELF reader and patcher of `xh_elf.c`: the program headers and the dynamic section (`ElfInit`), symbol lookup
  (`ElfHash`), the SLEB128 decoder (`Sleb128`), Android's packed relocations (`PackedRelocs`) and the rewriting of
  slots under page protections (`ElfHook`, with the maps scan of `xh_util.c` in `Protect`);
* the trampolines of `trampoline.c`, down to the bytes that four processors execute (`TrampolineCode`, `Trampoline`),
  and the installer of `hook_main.c` over them (`Install`);
* the tail queues of `queue.h` (`Tailq`, `Stailq`).

`Bits`, `Seqs`, `Wrappers` and `Machine` hold words, sequence operations, `Option` and the four architectures. Code
that changes its data in place is modelled by classes and methods; each is proved against a description of the whole
state (a tree or context as a value, the sequence of nodes, a map, a list of slots), and the properties below are
stated about that.

What such a description means is in turn stated from the inputs alone, in numbers where the formats give numbers: a
refresh from the lines of the map file (`XhMaps.RefreshLoads`), a hook from the relocation entries
(`ElfHook.RunAsBound`), the hashes as numbers (`ElfHash.AbiHashIsNumber`, `DjbHashIsNumber`), the packed format byte by
byte (`PackedRelocs.OneGroupListed`), the fields of the reader from the tags (`ElfInit.SectionFields`), the protocol of
the threads from its requests (`AsyncServed`).

How to read the tree proofs: `At(h, x, t)` says that the heap below head `h` is linked as subtree `t` inside the
context `x`; `Contents(h)` is the in-order sequence of nodes; `Valid(h)` adds search order, colours and black heights.

Where the code does something other than one would expect, the model follows the code:

* the preselection of a refresh looks at the first matching hook only (`XhRules.SelectionExact`, `PreselectMisses`);
* an empty group of packed relocations never ends (`PackedRelocs.EmptyGroupNeverEnds`, `EmptyGroupMisread`), so the
  round trip is about non-empty groups;
* a SLEB128 number of more than ceil(W/7) bytes shifts past the word, which C leaves undefined: its value is arbitrary
  here, and what depends on it is stated for streams without such numbers (`PackedRelocs.Terse`);
* `setupTrampoline` ors the offset into the aarch64 template (`Trampoline.SetupSets`, `OneSetup`), and an offset of
  128 or more is negative on x86 (`TrampolineCode.OffsetExact`);
* after a failed mmap the allocator's cursor is NULL while its old end stays, and the next trampoline is written to
  address 0 (`Trampoline.Trampolines.GenTrampoline`, `SecondMmapFails`);
* protections are restored exactly only if the pages of a slot agree (`ElfHook.RestoredExactly`, `StraddlingChanges`);
* a failed allocation can pass over the first line of a library in favour of a later one, which the next refresh then
  undoes (`XhMaps.RefreshAgain`, `FailurePassesOver`);
* a clear that races with a first asynchronous refresh leaves two workers (`Async.RaceMakesTwoWorkers`).

## Model

| member | source | states |
|---|---|---|
| Strcmp.CmpZero | library/src/main/jni/xhook/xh_core.c:78-81 | The tree's comparison answers 0 for equal names only. |
| Strcmp.CmpAnti | library/src/main/jni/xhook/xh_core.c:78-81 | Swapping the names swaps the sign of the comparison. |
| Strcmp.LtTrans | library/src/main/jni/xhook/xh_core.c:78-81 | The comparison is transitive, so the tree has a search order. |
| Strcmp.FirstDifference | library/src/main/jni/xhook/xh_core.c:78-81 | A name is less than another exactly when, where they first differ, it ends or has the smaller character. |
| RbHeap.RotateLeft | library/src/main/jni/xhook/tree.h:343-361 | Relinks the heap into the left-rotated tree with every child and parent pointer (and the root) consistent, colours as they were, and the in-order node sequence unchanged. |
| RbHeap.RotateRight | library/src/main/jni/xhook/tree.h:363-381 | The mirror image: right-rotated tree, all pointers consistent, in-order sequence unchanged. |
| RbHeap.AtPlug | library/src/main/jni/xhook/tree.h:343-381 | Looking at a tree from any of its subtrees describes the same linked heap, so a local change under a rotation is a change of the whole tree and of nothing else. |
| RbBalance.FitPlug | library/src/main/jni/xhook/tree.h:54-63 | Red-red freedom, black root and equal black heights of a whole tree are exactly the conditions on any subtree plus those on its surroundings. |
| RbInsert.RecolorPending | library/src/main/jni/xhook/tree.h:417-422 | Recolouring a red uncle moves the only possible red-red edge two levels up and keeps all black heights. |
| RbInsert.RotatedPending | library/src/main/jni/xhook/tree.h:429-430 | The rotation at the grandparent ends the insertion repair: no red-red edge is left and the black heights are unchanged. |
| RbInsert.InnerPending | library/src/main/jni/xhook/tree.h:423-428 | Turning an inner child into an outer one keeps the pending state. |
| RbInsert.InsertColor | library/src/main/jni/xhook/tree.h:408-450 | From a tree whose only fault is a red-red edge at the new node, ends with black root, no red-red edge, equal black heights, consistent pointers and the same in-order sequence. |
| RbInsert.Insert | library/src/main/jni/xhook/tree.h:598-627 | Keeps order, balance and pointers; the sequence grows by exactly the new node at its place in key order, or, for an equal key, the node that has it is returned and neither tree nor argument changes. |
| RbRemove.RedSibling | library/src/main/jni/xhook/tree.h:459-464 | With a red sibling, the rotation leaves the deficit in place under a red parent. |
| RbRemove.BothBlack | library/src/main/jni/xhook/tree.h:465-471 | With black nephews, the repainted sibling moves the deficit one level up, or a red parent absorbs it. |
| RbRemove.InnerNephew | library/src/main/jni/xhook/tree.h:473-482 | With a red inner nephew only, the rotation at the sibling makes the outer nephew red and keeps the deficit. |
| RbRemove.OuterNephew | library/src/main/jni/xhook/tree.h:483-490 | With a red outer nephew, the rotation at the parent pays the deficit back: the tree is balanced again. |
| RbRemove.RemoveColor | library/src/main/jni/xhook/tree.h:452-528 | From a tree one black node short at a single place, ends with a valid red-black tree over the same in-order sequence. |
| RbRemove.Remove | library/src/main/jni/xhook/tree.h:530-596 | Takes exactly the given node out (returned, relinked, no keys copied); order, colours, black heights and all pointers are kept, the other nodes stay in order. |
| RbRemove.SortedRemoval | library/src/main/jni/xhook/tree.h:530-596 | What removal leaves is still strictly ordered and holds every node but the removed one. |
| RbScan.HeightBound | library/src/main/jni/xhook/tree.h:54-63 | Every valid tree of n nodes has height at most 2 lg (n + 1), written as 2^height <= (n + 1)^2. |
| RbScan.Find | library/src/main/jni/xhook/tree.h:629-644 | Returns the node with the key, or NULL exactly when none has it, after at most 2 lg (n + 1) comparisons. |
| RbScan.NFind | library/src/main/jni/xhook/tree.h:647-665 | Returns the least node whose key is not below the argument, or NULL when all are below, after at most 2 lg (n + 1) comparisons. |
| RbScan.Next | library/src/main/jni/xhook/tree.h:668-688 | Returns the in-order successor, found by right child or by climbing parents; NULL after the last. |
| RbScan.Prev | library/src/main/jni/xhook/tree.h:690-710 | Returns the in-order predecessor; NULL before the first. |
| RbScan.PrecedeFollow | library/src/main/jni/xhook/tree.h:668-710 | Predecessor undoes successor at every inner position. |
| RbScan.MinMax | library/src/main/jni/xhook/tree.h:711-724 | Returns the first or the last node in key order, NULL for an empty tree. |
| RbScan.Foreach | library/src/main/jni/xhook/tree.h:738-741 | Minimum followed by repeated successor visits all nodes once in strictly increasing key order. |
| RbScan.ForeachReverse | library/src/main/jni/xhook/tree.h:690-724 | Maximum followed by repeated predecessor visits the exact reverse. |
| Splay.RotateRight | library/src/main/jni/xhook/tree.h:89-93 | Rotates at the root inside a splay; the pieces stay apart and the whole in-order sequence is unchanged. |
| Splay.RotateLeft | library/src/main/jni/xhook/tree.h:95-99 | The mirror image. |
| Splay.LinkLeft | library/src/main/jni/xhook/tree.h:101-105 | Moves the root and its right side to the right tree; the concatenated in-order sequence is unchanged. |
| Splay.LinkRight | library/src/main/jni/xhook/tree.h:107-111 | Moves the root and its left side to the left tree; the concatenated in-order sequence is unchanged. |
| Splay.Assemble | library/src/main/jni/xhook/tree.h:113-118 | Joins left tree, middle and right tree under the root with the same in-order sequence. |
| Splay.Splay | library/src/main/jni/xhook/tree.h:210-243 | Keeps the in-order node sequence and ends with everything left of the root below the key and everything right of it above: the root has the key, or is one of its two in-order neighbours. |
| Splay.Find | library/src/main/jni/xhook/tree.h:129-138 | Returns a node with the key, or NULL exactly when there is none; the sequence is unchanged. |
| Splay.Insert | library/src/main/jni/xhook/tree.h:165-187 | Refines insertion into a sorted set: a new key joins at its place, an equal key returns the node that has it. |
| Splay.Remove | library/src/main/jni/xhook/tree.h:189-208 | Refines removal from a sorted set: exactly the node with the key goes, NULL when there is none. As in the source, the value returned is the argument. |
| Splay.Next | library/src/main/jni/xhook/tree.h:140-152 | Returns the in-order successor of an element of the tree. |
| Splay.MinMax | library/src/main/jni/xhook/tree.h:244-279 | Brings the least or the greatest node to the root with the sequence unchanged. |
| XhRules.Attempts | library/src/main/jni/xhook/xh_core.c:248-281 | For all lists of hooks and ignore rules, the hooks attempted are, in registration order, exactly those whose pattern matches and that no rule for the same symbol or for all symbols covers, despite the early return and the break. |
| XhRules.AppliesExactly | library/src/main/jni/xhook/xh_core.c:248-281 | A hook is attempted exactly when it is registered, matches the path, and every ignore rule that matches is for another symbol. |
| XhRules.Preselect | library/src/main/jni/xhook/xh_core.c:377-402 | What the selection loop computes, with the break behind check_continue: only the first matching hook is looked at. |
| XhRules.SelectedIsAttempted | library/src/main/jni/xhook/xh_core.c:248-281 | A library is selected if and only if it gets an attempt and the first attempt is for its first matching hook. |
| XhRules.SelectionExact | library/src/main/jni/xhook/xh_core.c:377-402 | Selection agrees with having an applicable hook if and only if there is none or the first matching hook is not ignored. |
| XhRules.PreselectMisses | library/src/main/jni/xhook/xh_core.c:396-402 | A concrete set of rules under which a library with an applicable hook is not selected. |
| XhRules.IgnoredMore | library/src/main/jni/xhook/xh_core.c:262-278 | One more ignore rule takes away exactly the hooks it covers; the others keep their order. |
| XhQueue.RuleQueue.Add | library/src/main/jni/xhook/xh_core.c:171-173 | Links a new rule at the tail of a real tail queue; the rules before it stay as they are. |
| XhQueue.RuleQueue.List | library/src/main/jni/xhook/xh_core.c:257 | Walks the links and yields the rules in order of registration. |
| XhQueue.RuleQueue.Clear | library/src/main/jni/xhook/xh_core.c:639-662 | Walks the links while removing them; no rule is left. |
| XhMaps.RefreshResult | library/src/main/jni/xhook/xh_core.c:331-483 | For all map lines and whatever allocations fail: the new tree maps each path to the base of its first eligible line that counts (one of an unknown path without memory does not) and nothing else; what is left of the old tree are the paths that are gone; the hooks ran as RunsFor lists. |
| XhMaps.RunsOnce | library/src/main/jni/xhook/xh_core.c:427-457 | These runs: exactly one for each path that is new or has moved, at its first base, and none for an absent or an unchanged one. |
| XhMaps.CountedFirst | library/src/main/jni/xhook/xh_core.c:433-441 | Of a known path every line counts; an unknown one is missed exactly when memory fails at each of its lines. |
| XhMaps.StaysDisjoint | library/src/main/jni/xhook/xh_core.c:408-456 | Whatever allocations fail, old and new tree never share a path. |
| XhMaps.RefreshAgain | library/src/main/jni/xhook/xh_core.c:304-483 | A second refresh over the same lines, with other allocations failing, loses no library and has each at its first base; it hooks nothing and keeps the same map exactly when no failure had passed over a first line in favour of one at another base, and every missed library is missed again. |
| XhMaps.RefreshAgainInMemory | library/src/main/jni/xhook/xh_core.c:304-483 | Without failures a second refresh hooks nothing, frees nothing and leaves the same map. |
| XhMaps.FailurePassesOver | library/src/main/jni/xhook/xh_core.c:433-441 | Concrete lines for which a failed allocation makes the next refresh move and hook a library again. |
| XhMaps.EntriesLoad | library/src/main/jni/xhook/xh_core.c:331-406 | In terms of the lines alone: a library at base b is considered at exactly the lines that are private and executable, name a selected path, and either start at b with offset 0, or follow a readable private line of the path with offset 0 that starts at b and is the last line recorded before them; and b holds an ELF header. |
| XhMaps.FirstLoaded | library/src/main/jni/xhook/xh_core.c:331-406 | The base a path gets is that of the first such line that counts. |
| XhMaps.RunsOrdered | library/src/main/jni/xhook/xh_core.c:408-456 | Libraries are hooked in the order of the lines that load them. |
| XhMaps.RefreshLoads | library/src/main/jni/xhook/xh_core.c:304-483 | Hence what a refresh leaves, from the lines: each library at the base its first line that counts gives, and no other; one run for each that is new or has moved, in line order, attempting all applicable hooks, at least one, exactly if its ELF reader initialises. |
| XhMaps.SplitMapping | library/src/main/jni/xhook/xh_core.c:360-375 | A read-only line and then an executable line of the same file give the base of the first. |
| XhCore.Hook | library/src/main/jni/xhook/xh_core.c:248-302 | One hooking attempts the applicable hooks of the library if its ELF reader initialises, and none otherwise. |
| XhCore.Classify | library/src/main/jni/xhook/xh_core.c:335-406 | The tests of the loop body accept exactly the eligible lines; the base is the line's own at offset 0 and otherwise that of the recorded line, which must be a readable one of the same path at offset 0; a line is recorded exactly if it is private, accessible, named and not executable. |
| XhCore.Move | library/src/main/jni/xhook/xh_core.c:412-425 | Moves a node between the two real trees; the branch for a repeated path when updating is unreachable. |
| XhCore.Update | library/src/main/jni/xhook/xh_core.c:412-432 | A known library changes trees and is hooked again exactly if its base address changed. |
| XhCore.Consider | library/src/main/jni/xhook/xh_core.c:408-456 | One accepted line takes the two trees from one step of the map-level description to the next; every node lives in exactly one tree. |
| XhCore.Scan | library/src/main/jni/xhook/xh_core.c:331-459 | The whole line loop refines the fold over the accepted lines. |
| XhCore.Sweep | library/src/main/jni/xhook/xh_core.c:463-472 | RB_FOREACH_SAFE with RB_REMOVE and free of the current node visits every node exactly once in key order, frees only live nodes, and ends with an empty tree. |
| XhCore.Rebuild | library/src/main/jni/xhook/xh_core.c:304-483 | One refresh over the real trees: the new tree holds, for every path, the base that the lines give it (as RefreshLoads states), the nodes alive are exactly its nodes (nothing leaked, nothing freed twice), the old tree is empty. |
| XhCore.Core.Register | library/src/main/jni/xhook/xh_core.c:137-176 | Unless refused (invalid arguments, after a refresh has begun, without memory) the hook is linked at the tail of the queue, and from then on every library it matches and no rule covers gets it after all hooks it got before; nothing else changes. |
| XhCore.Core.Ignore | library/src/main/jni/xhook/xh_core.c:178-221 | Unless refused likewise, the rule is linked at the tail, and from then on every library gets the hooks it got before without those the rule covers. |
| XhCore.Core.Refresh | library/src/main/jni/xhook/xh_core.c:574-601 | A synchronous refresh keeps the invariant that the tree is valid and holds all live nodes; map and hooking are what the lines say, as RefreshLoads states. |
| XhCore.Core.Clear | library/src/main/jni/xhook/xh_core.c:622-665 | Frees every node exactly once and unlinks all hooks and rules. |
| Async.OwnedKept | library/src/main/jni/xhook/xh_core.c:485-666 | Every step of every thread keeps: the owner of each mutex is exactly the thread between its lock and unlock. |
| Async.MutualExclusion | library/src/main/jni/xhook/xh_core.c:485-666 | In every run of any number of threads, refresh bodies and clear's teardown never overlap, and no thread waits for the core mutex while it holds the refresh mutex. |
| Async.AttendedKept | library/src/main/jni/xhook/xh_core.c:485-666 | Every step of every thread keeps: workers quit only when told to, and a pending request is watched. |
| Async.NoWakeUpLost | library/src/main/jni/xhook/xh_core.c:497-504 | In every run, racing or not: while the worker is to run, a pending request coexists with a sleeping worker only if the owner of the mutex is about to signal or to create a worker, or another worker is awake. |
| Async.InvKept | library/src/main/jni/xhook/xh_core.c:485-666 | Every step of a run in which clear does not race with refresh keeps the worker invariant. |
| Async.WorkerAttends | library/src/main/jni/xhook/xh_core.c:485-514 | When clear does not race with refresh at most one worker lives; while it is to run it is there, and it sleeps with a request pending, or told to stop, only if the thread about to signal it holds the mutex. |
| Async.UnblockedSteps | library/src/main/jni/xhook/xh_core.c:485-666 | A thread that waits for no mutex, signal or join can take its next step. |
| Async.NoDeadlock | library/src/main/jni/xhook/xh_core.c:485-666 | When clear does not race with refresh, some thread can step as long as any caller is inside the library. |
| Async.JoinEnds | library/src/main/jni/xhook/xh_core.c:605-614 | In such runs the join of clear ends: it lasts for at most eight steps of whatever threads, because only the worker steps and each step brings it nearer to its end; meanwhile the worker, and then clear, can step. |
| Async.RaceMakesTwoWorkers | library/src/main/jni/xhook/xh_core.c:549-619 | A concrete run in which clear races with the first asynchronous refresh and two workers live. |
| AsyncServed.RequestServed | library/src/main/jni/xhook/xh_core.c:583-591 | In every run, racing or not: from the step that makes a request on, a refresh is due (the flag is up, or a worker has taken the request) until a worker begins a refresh. |
| AsyncServed.CallsDo | library/src/main/jni/xhook/xh_core.c:574-666 | In every run, before it returns, an asynchronous refresh has made its request, a synchronous one has run the refresh under its mutex, and a clear has gone through the teardown; a refresh may instead have failed because initialisation had. |
| AsyncServed.AsyncCallServed | library/src/main/jni/xhook/xh_core.c:574-601 | In every run, when an asynchronous refresh returns without an error a worker has begun a refresh since, or one is due. |
| AsyncServed.NotMoreThanAsked | library/src/main/jni/xhook/xh_core.c:497-513 | In every run, with any number of workers: the refreshes begun, those on their way and the one pending never exceed the requests made. |
| AsyncServed.OnceUntilClear | library/src/main/jni/xhook/xh_core.c:516-571 | In every run: after the signal handler has been set up, or a worker created, it is done again only when a clear has put the flag down in between. |
| AsyncServed.ReadyKept | library/src/main/jni/xhook/xh_core.c:549-619 | When clear does not race: a reported worker is to run until clear stops it, and requests are made only while one is reported; every step keeps this. |
| AsyncServed.ClearStartsAfresh | library/src/main/jni/xhook/xh_core.c:603-666 | When clear does not race, it ends with all four initialisation flags down, no worker alive and no other caller inside. |
| AsyncServed.ComesNearer | library/src/main/jni/xhook/xh_core.c:485-514 | While a refresh is due, each step of the worker brings it nearer to that refresh and no other step takes it back. |
| AsyncServed.BegunSoon | library/src/main/jni/xhook/xh_core.c:485-591 | When clear does not race and none comes: between a request and the refresh the worker takes at most six steps, and at every moment the worker, or the thread whose mutex or signal it waits for, can step. |
| AsyncServed.LetsGo | library/src/main/jni/xhook/xh_core.c:485-600 | A thread other than clear keeps the core mutex for at most five steps of its own and never waits while it has it. |
| Sleb128.Decoder.Next | library/src/main/jni/xhook/xh_elf.c:111-135 | Fails exactly when no byte ends the number; otherwise the cursor is just past it, and, for at most ceil(W/7) bytes, the value is the signed value of the bytes modulo 2^W. |
| Sleb128.EncodeSigned | library/src/main/jni/xhook/xh_elf.c:111-135 | The shortest encoding of an integer has that integer as its signed value. |
| Sleb128.EncodeSpan | library/src/main/jni/xhook/xh_elf.c:118-126 | The decoder stops exactly at the end of an encoding, whatever follows. |
| Sleb128.EncodeFits | library/src/main/jni/xhook/xh_elf.c:114-126 | Every W-bit signed number is encoded in at most ceil(W/7) bytes, so it is decoded exactly. |
| Sleb128.Extended | library/src/main/jni/xhook/xh_elf.c:128-131 | Setting all bits from the shift upwards is the sign extension of a W-bit word. |
| PackedRelocs.ReadNum | library/src/main/jni/xhook/xh_elf.c:111-135 | Reading back an encoded word gives the word and leaves exactly what follows. |
| PackedRelocs.Iterator.Init | library/src/main/jni/xhook/xh_elf.c:160-172 | Reads the count and the first offset; a failed read leaves an iterator that lists nothing. |
| PackedRelocs.Iterator.ReadGroupFields | library/src/main/jni/xhook/xh_elf.c:174-206 | Reads the fields that the flags announce, in order, and refuses an addend in a section without addends. |
| PackedRelocs.Iterator.Next | library/src/main/jni/xhook/xh_elf.c:208-256 | On any bytes: at most as many entries as announced, the cursor never past the end; and the entry and state of the step function when no number is too long. |
| PackedRelocs.RoundTrip | library/src/main/jni/xhook/xh_elf.c:160-256 | For all lists of non-empty groups under every valid combination of flags, and both entry kinds, packing and draining gives the same relocations in order modulo the word size and consumes exactly the stream. |
| PackedRelocs.PackedListing | library/src/main/jni/xhook/xh_elf.c:160-256 | A packed stream holds no over-long number, so the iterator as written lists exactly the packed relocations. |
| PackedRelocs.EverythingPacks | library/src/main/jni/xhook/xh_elf.c:155-158 | Every list of relocations has a packing: one group that shares nothing. |
| PackedRelocs.OneGroupListed | library/src/main/jni/xhook/xh_elf.c:155-256 | For each of the valid flag values, byte by byte: what a section of one group of one entry lists, with the count and the first offset first, then size and flags, then the shared fields, then the entry's own. |
| PackedRelocs.HeaderKeeps | library/src/main/jni/xhook/xh_elf.c:174-206 | A group header keeps offset, count and index, and each field that its flags do not announce; a group without addends starts from addend 0. |
| PackedRelocs.EntryKeeps | library/src/main/jni/xhook/xh_elf.c:208-242 | An entry of a group with a shared distance adds it to the offset, modulo the word size; an entry keeps info and addend where the group shares them. |
| PackedRelocs.Listed | library/src/main/jni/xhook/xh_elf.c:1032-1043 | Running the iterator to its end, as the hook does without looking at the result of init, lists what the step function says; on any input whose count is no over-long number, at most as many entries as it announces. |
| PackedRelocs.EmptyGroupNeverEnds | library/src/main/jni/xhook/xh_elf.c:214-217 | After an empty group's header the whole rest of the run reads entries of that group only; no further header is ever read. |
| PackedRelocs.EmptyGroupMisread | library/src/main/jni/xhook/xh_elf.c:214-217 | A concrete stream with an empty group whose second group's size is taken for an entry. |
| ElfHash.TopBitsDropped | library/src/main/jni/xhook/xh_elf.c:308-310 | Dropping the top bits by exclusive-or agrees with the mask of the System V ABI; both leave the low 28 bits with the top four brought in above the lowest four. |
| ElfHash.AbiHashStep | library/src/main/jni/xhook/xh_elf.c:306-311 | On natural numbers: a further byte c takes the hash h to x = (16h + c) mod 2^32 with its top four bits moved to bits 4 to 7 by exclusive-or; the result is below 2^28. |
| ElfHash.AbiHashIsNumber | library/src/main/jni/xhook/xh_elf.c:302-314 | The hash of a name is the name read as a number to base 16 if and only if that number is below 2^28. |
| ElfHash.ShortNames | library/src/main/jni/xhook/xh_elf.c:302-314 | In particular for every name of up to five bytes. |
| ElfHash.ElfHash | library/src/main/jni/xhook/xh_elf.c:302-314 | The loop computes the hash of the System V ABI (chapter 5, "Hash Table"). |
| ElfHash.GnuHash | library/src/main/jni/xhook/xh_elf.c:317-326 | The loop computes h * 33 + c from 5381 in 32 bits. |
| ElfHash.DjbHashIsNumber | library/src/main/jni/xhook/xh_elf.c:317-326 | For every name: the hash is 5381 * 33^n plus the name read as a number to base 33, modulo 2^32. |
| ElfHash.ChainEnds | library/src/main/jni/xhook/xh_elf.c:362 | A chain without cycles ends in fewer steps than the table has entries. |
| ElfHash.HashLookup | library/src/main/jni/xhook/xh_elf.c:356-376 | Terminates on acyclic chains and returns the first symbol of the name on the chain of its hash. |
| ElfHash.SysVFindComplete | library/src/main/jni/xhook/xh_elf.c:356-375 | On a complete table that lookup succeeds exactly when a linear scan of the symbols from 1 does. |
| ElfHash.SysVFindsAb | library/src/main/jni/xhook/xh_elf.c:356-375 | The concrete table that a linker writes for one name, and the index found in it. |
| Bits.MaskSplit | library/src/main/jni/xhook/xh_elf.c:382-388 | A number has a mask of two parts exactly when it has each part. |
| Bits.BitwiseAt | library/src/main/jni/xhook/xh_elf.c:308-388 | And, or and exclusive-or work on every bit by itself. |
| ElfHash.InBloomMeans | library/src/main/jni/xhook/xh_elf.c:382-388 | A hash passes the filter exactly when the bits hash mod W and (hash >> shift) mod W are set in the word (hash / W) mod size, for words of W bits. |
| ElfHash.GnuLookupDef | library/src/main/jni/xhook/xh_elf.c:377-414 | On a complete table, bloom word, bucket and chain find the first defined index that bears the name, and nothing exactly when there is none. |
| ElfHash.GnuLookupUndef | library/src/main/jni/xhook/xh_elf.c:416-431 | Finds the first undefined index that bears the name, and nothing exactly when there is none. |
| ElfHash.GnuLookup | library/src/main/jni/xhook/xh_elf.c:433-438 | Returns the first defined symbol of the name on the chain of its bucket, or else the first undefined one. |
| ElfHash.GnuFindComplete | library/src/main/jni/xhook/xh_elf.c:433-438 | On a complete table that lookup succeeds exactly when a linear scan of all symbols does. |
| ElfHash.FindDefScans | library/src/main/jni/xhook/xh_elf.c:377-414 | On a complete table bloom word, bucket and chain amount to a linear scan of the defined symbols. |
| ElfHash.GnuFindsAb | library/src/main/jni/xhook/xh_elf.c:377-414 | The concrete GNU table of one name, with its filter bits, bucket and chain word, and the index found in it. |
| ElfInit.ElfInfo.ParseDynamic | library/src/main/jni/xhook/xh_elf.c:804-889 | Fails exactly when an entry in force has an address below the base (a DT_HASH behind a DT_GNU_HASH excepted); otherwise each field comes from the last entry of its kind before DT_NULL, sizes in 32 bits, and a GNU hash table is used wherever it stands. |
| ElfInit.LastOfMeans | library/src/main/jni/xhook/xh_elf.c:804-889 | The value used is that of an entry that none of its kind follows. |
| ElfInit.OrderFree | library/src/main/jni/xhook/xh_elf.c:859-887 | With at most one entry of each kind their order does not matter. |
| ElfInit.SectionFields | library/src/main/jni/xhook/xh_elf.c:804-858 | With the tags in numbers: each field is the load bias plus the value of the last entry with its tag, modulo the word, or that value in 32 bits for a size. |
| ElfInit.TableFields | library/src/main/jni/xhook/xh_elf.c:859-887 | The last GNU table is in use wherever it stands, and only without one the last System V table. |
| ElfInit.SysVLayout | library/src/main/jni/xhook/xh_elf.c:859-871 | The buckets and chains searched are the words from 2 on, and from 2 + bucket count on, of the table. |
| ElfInit.GnuLayout | library/src/main/jni/xhook/xh_elf.c:872-885 | The filter searched starts at byte 16 of the table, in words of the machine; buckets and chain words follow it. |
| ElfInit.Locate | library/src/main/jni/xhook/xh_elf.c:758-803 | Succeeds exactly when the base is not 0, the first loaded segment of the file's start lies in memory at or before the base, and there is a dynamic segment; the bias takes the one address to the other, and the dynamic section is the first dynamic segment, moved by it. |
| ElfInit.ElfInfo.Check | library/src/main/jni/xhook/xh_elf.c:891-914 | Accepts exactly a missing packed section or one with the magic number, which is stepped over, with no required table missing. |
| Protect.GetMemProtect | library/src/main/jni/xhook/xh_util.c:44-103 | For areas in address order: succeeds exactly when the selected areas cover the whole range, and then a permission bit is set if and only if every byte of the range has it. |
| Protect.PassedOver | library/src/main/jni/xhook/xh_util.c:61-68 | Shared mappings, and lines without the path name in them, are not looked at. |
| Protect.LeastCover | library/src/main/jni/xhook/xh_util.c:40-42 | Start and cover give the least run of whole pages around the word. |
| ElfHook.ScanReadsShared | library/src/main/jni/xhook/xh_util.c:105-108 | What the scan computes for a word is what its pages share. |
| ElfHook.CoverIsPages | library/src/main/jni/xhook/xh_util.c:110-116 | The range given to mprotect holds exactly the word's pages. |
| ElfHook.RestoredExactly | library/src/main/jni/xhook/xh_elf.c:461-487 | A replacement leaves all protections as they were if and only if the word's pages agree or need no change. |
| ElfHook.StraddlingChanges | library/src/main/jni/xhook/xh_elf.c:461-487 | A concrete word over two pages with different protections, which a replacement does not restore. |
| ElfHook.AlignedOnePage | library/src/main/jni/xhook/xh_elf.c:461-487 | An aligned word lies in one page, so its replacement restores the protections. |
| ElfHook.Process.ReplaceFunction | library/src/main/jni/xhook/xh_elf.c:448-497 | Writes the slot and saves its old value unless it holds the new function already; a refused call before the write changes neither memory nor *old_func; pages outside the word's cover are never touched. |
| ElfHook.Process.FindAndReplace | library/src/main/jni/xhook/xh_elf.c:928-981 | Replaces exactly the entries whose info is the symbol's index above a matching relocation type (both in numbers, for each processor); on success the word at (bias + offset) mod 2^W holds the new function and no other word has changed; it is a format error exactly if that address is below the base. |
| ElfHook.PatchMeans | library/src/main/jni/xhook/xh_elf.c:448-497 | For every list of slots: those before the first that is below the base or not mapped hold the new function afterwards, no other word changes, the first bad slot decides how the run ends, and *old_func gets what the last freshly met slot held before the hook, never the new function. |
| ElfHook.LastFreshIs | library/src/main/jni/xhook/xh_elf.c:476-478 | *old_func gets the value of the last slot met for the first time that did not hold the new function. |
| ElfHook.HooksExactly | library/src/main/jni/xhook/xh_elf.c:955-972 | The model's test and address of an entry are those numbers. |
| ElfHook.RunAsBound | library/src/main/jni/xhook/xh_elf.c:928-1046 | From the entries of the file: a run that ends well leaves the new function in every word that a binding data entry, or the first binding jump-slot entry, fills in, and every other word as it was; a format error or a fault comes from such an entry below the base or where nothing is mapped. |
| ElfHook.EntriesStartInside | library/src/main/jni/xhook/xh_elf.c:80-95 | A plain section lists the entries that start before its end, with the entry sizes in bytes. |
| ElfHook.SlotsInOrder | library/src/main/jni/xhook/xh_elf.c:1005-1030 | A concrete library: its jump slot, at bias plus offset, comes before its data slot. |
| ElfHook.PatchAgain | library/src/main/jni/xhook/xh_elf.c:457-459 | For every list of slots: rewriting them again from where the first run ended changes neither memory nor *old_func and ends the same way. |
| ElfHook.ReachedHarmless | library/src/main/jni/xhook/xh_elf.c:448-497 | However a run ends, also at a refused protection call: words change only in slots and only to the new function, and *old_func gets nothing but what a slot held before, never the new function. |
| ElfHook.PatchAppend | library/src/main/jni/xhook/xh_elf.c:1005-1043 | Rewriting one list of slots and then another is rewriting their concatenation. |
| ElfHook.Process.HookPlt | library/src/main/jni/xhook/xh_elf.c:1005-1017 | When it ends well, the first entry that binds the symbol has the new function at (bias + offset) mod 2^W and no other word has changed; otherwise that entry says why. |
| ElfHook.Process.HookDyn | library/src/main/jni/xhook/xh_elf.c:1019-1030 | When it ends well, every entry that binds the symbol has the new function at (bias + offset) mod 2^W and no other word has changed; otherwise one of them says why. Slots are taken in order up to the first error. |
| ElfHook.Process.HookAndroid | library/src/main/jni/xhook/xh_elf.c:1032-1043 | The same for the entries that the packed section lists. |
| ElfHook.FindSymidx | library/src/main/jni/xhook/xh_elf.c:440-446 | Returns the index that the table's lookup determines, which bears the symbol. |
| ElfHook.LookupComplete | library/src/main/jni/xhook/xh_elf.c:440-446 | On a complete table of either kind a symbol is found exactly when a linear scan finds it. |
| ElfHook.Process.Hook | library/src/main/jni/xhook/xh_elf.c:983-1046 | For the symbol that the lookup determines: when it ends well, the first jump-slot entry and every data entry of both other sections that bind it have the new function at (bias + offset) mod 2^W, and no other word has changed; protections are as before if no protection call failed and the pages of each slot agree or need no change; a symbol that is not found is no error and changes nothing; however it ends, only slots change, only to the new function, and *old_func gets a slot's former value only. |
| ElfHook.Process.HookTwice | library/src/main/jni/xhook/xh_elf.c:983-1046 | A second identical call changes neither memory nor *old_func nor any protection and returns the same, unless a protection call stopped the first one. |
| ElfHook.PackedLikePlain | library/src/main/jni/xhook/xh_elf.c:1019-1043 | A hook visits the same slots in the same order when the packed relocations are listed plainly instead, and, unless a protection call stops it, ends with the same memory, the same *old_func and the same result. |
| TrampolineCode.HookMeans | library/src/main/jni/trampoline.c:25-106 | On all four processors, executing the bytes of a hook trampoline puts its method in the register, keeps the stack, and goes on to the word at the method plus the configured offset. |
| TrampolineCode.OffsetExact | library/src/main/jni/trampoline.c:200-213 | That word is the one offset bytes on if and only if the offset is below 128 or the processor is an ARM. |
| TrampolineCode.BackupMeans | library/src/main/jni/trampoline.c:36-124 | On all four processors, executing the bytes of a backup trampoline puts its method in the register, keeps the stack, and goes on to the hard-coded entry point. |
| Trampoline.SetupSets | library/src/main/jni/trampoline.c:200-213 | Setting the offset rewrites exactly the offset of the template; on aarch64 it is or-ed with what was there. |
| Trampoline.OneSetup | library/src/main/jni/trampoline.c:200-213 | One setup of the array as compiled sets the offset on every architecture. |
| Trampoline.SpaceAdded | library/src/main/jni/trampoline.c:215-227 | A fresh space leaves all blocks in place and apart from it. |
| Trampoline.RoundUpFits | library/src/main/jni/trampoline.c:194-195 | Rounding up keeps the cursor aligned and inside the space. |
| Trampoline.BlockAdded | library/src/main/jni/trampoline.c:126-198 | A block written at the cursor is aligned, inside the space, apart from all others and from the free rest, and no earlier byte of code changes. |
| Trampoline.Trampolines.GenTrampoline | library/src/main/jni/trampoline.c:126-198 | Appends exactly one block with the code for the request, at the cursor or in a fresh space if there is no room, keeping all earlier blocks in memory; it writes to address 0 if and only if an mmap failed after an earlier one succeeded. |
| Trampoline.SecondMmapFails | library/src/main/jni/trampoline.c:130-137 | A run whose second mmap fails: one trampoline is refused and the next is written to address 0. |
| Trampoline.Trampolines.SetupTrampoline | library/src/main/jni/trampoline.c:200-213 | Changes the template only; blocks already made keep their code. |
| Install.RedirectMeans | library/src/main/jni/hook_main.c:141-199 | Entering a method through a new trampoline gives it the meaning of the trampoline's method and leaves every other method's meaning, if no trampoline reads its entry point. |
| Install.InstallMeans | library/src/main/jni/hook_main.c:201-227 | An install gives the target the hook's meaning, the backup the target's meaning so far, and no other method a new one. |
| Install.TargetRunsLatestHook | library/src/main/jni/hook_main.c:141-227 | After any sequence of installs, calling a target runs its latest hook's own code with the method register set to that hook, and nothing else. |
| Install.BackupRunsTargetBefore | library/src/main/jni/hook_main.c:215-221 | Calling the i-th backup runs exactly what its target ran just before the i-th install. |
| Install.FirstBackupRunsOriginal | library/src/main/jni/hook_main.c:215-221 | The first backup of a target runs the target's original code as the target. |
| Install.OthersRunOwnCode | library/src/main/jni/hook_main.c:141-227 | A method that is neither target nor backup keeps running its own code. |
| Install.InstallInterp | library/src/main/jni/hook_main.c:168-172 | Where methods have an interpreter entry point, an install gives the target the hook's and the backup the target's; all others stay. |
| Install.TargetInterpIsHooks | library/src/main/jni/hook_main.c:168-172 | After any sequence of installs a target has its latest hook's own interpreter entry point. |
| Install.BackupInterpIsTargets | library/src/main/jni/hook_main.c:168-172 | The i-th backup has the one that its target had just before the i-th install. |
| Install.OthersKeepInterp | library/src/main/jni/hook_main.c:168-172 | A method that is neither keeps its own, and every method does where there is none. |
| Install.StubsAreCode | library/src/main/jni/trampoline.c:126-198 | Every trampoline of the running program does in memory, byte for byte, what the meaning of calls takes it to do. |
| Install.Runtime.ReplaceMethod | library/src/main/jni/hook_main.c:141-199 | On success the method is entered through a new trampoline at a fresh address and takes over the interpreter entry point if there is one; otherwise nothing changes. |
| Install.Runtime.DoBackupAndHook | library/src/main/jni/hook_main.c:201-227 | Backup and target are redirected, in this order, each unless its trampoline could not be made; the result counts the failures, and nothing else changes. |
| Tailq.InsertHead | library/src/main/jni/xhook/queue.h:485-493 | Refines prepending, with every back address and the tail address exact. |
| Tailq.InsertTail | library/src/main/jni/xhook/queue.h:512-517 | Refines appending. |
| Tailq.InsertBefore | library/src/main/jni/xhook/queue.h:495-500 | Refines insertion before an element, without the head. |
| Tailq.InsertAfter | library/src/main/jni/xhook/queue.h:502-510 | Refines insertion after an element. |
| Tailq.Remove | library/src/main/jni/xhook/queue.h:528-535 | Refines removal; the removed element keeps its next address. |
| Tailq.Concat | library/src/main/jni/xhook/queue.h:519-526 | Refines concatenation; the second queue ends empty. |
| Tailq.Swap | library/src/main/jni/xhook/queue.h:537-552 | Exchanges the contents of two queues, either of which may be empty. |
| Tailq.Last | library/src/main/jni/xhook/queue.h:442-443 | Taking the tail address for a head yields the last element, NULL for an empty queue. |
| Tailq.Prev | library/src/main/jni/xhook/queue.h:439-440 | Taking a back address for a head yields the element before, NULL for the first. |
| Tailq.Foreach | library/src/main/jni/xhook/queue.h:445-448 | Visits the elements in order. |
| Tailq.ForeachReverse | library/src/main/jni/xhook/queue.h:465-468 | Visits the exact reverse. |
| Tailq.Sweep | library/src/main/jni/xhook/queue.h:455-458 | Removing each element while traversing safely visits all in order and ends empty. |
| Stailq.InsertHead | library/src/main/jni/xhook/queue.h:344-348 | Refines prepending with the tail address exact. |
| Stailq.InsertAfter | library/src/main/jni/xhook/queue.h:350-354 | Refines insertion after an element. |
| Stailq.InsertTail | library/src/main/jni/xhook/queue.h:356-360 | Refines appending. |
| Stailq.Concat | library/src/main/jni/xhook/queue.h:362-368 | Refines concatenation; the second queue ends empty. |
| Stailq.RemoveAfter | library/src/main/jni/xhook/queue.h:370-374 | Refines removal of the next element. |
| Stailq.RemoveHead | library/src/main/jni/xhook/queue.h:376-380 | Refines removal of the first element. |
| Stailq.Remove | library/src/main/jni/xhook/queue.h:382-392 | Walks up to the element before and refines removal. |
| Stailq.Swap | library/src/main/jni/xhook/queue.h:394-405 | Exchanges the contents of two queues, either of which may be empty. |
| Stailq.Last | library/src/main/jni/xhook/queue.h:320-322 | Yields the last element, NULL for an empty queue. |

## Left out

- Signal handling and siglongjmp (`library/src/main/jni/xhook/xh_core.c:87-119,223-246,283-302`): the ELF header check
  is a predicate on addresses, and hooking does not fault inside `XhCore`; `ElfHook` ends a run with `Fault` instead.
- XhCore.Hook: takes the ELF reader's initialisation as a predicate and records which hooks are attempted; what an
  attempt does to memory is `ElfHook.Process.Hook`, and the two are not joined.
- XhCore.Core.Refresh: a failed malloc and a failed strdup are one flag of the line, and each is an input. A refresh
  that cannot open the maps file, and so changes nothing, is not modelled.
- ElfHook.Process.Hook: memory is words by address, so slots that overlap without being equal are not captured; the
  instruction cache is not part of the model.
- ElfHook.Process.HookTwice: says nothing when the packed section holds an over-long number, whose value C leaves open.
- ElfHook.Process.SetProtect: a refused mprotect may have changed any of the word's pages.
- ElfInit.SysVLayout: the names of a table are an input; that they lie in the symbol and string tables is not modelled,
  and `ElfHook` takes what `ElfInit` finds as a value.
- ElfHash.GnuLookup: tables are read within bounds and chains end, as a linker lays them out; a malformed table is not
  modelled.
- Protect.GetMemProtect: a range that wraps around the end of the address space is not modelled.
- Install.Runtime.DoBackupAndHook: the access flags and the table of offsets by SDK version are left out, the offset
  being a parameter.
- TrampolineCode.HookMeans: the interpreter knows the instructions that the trampolines use, and no flags.
- Async.NoDeadlock: says that someone can step, not that the scheduler is fair to each thread; memory is sequentially
  consistent.
- AsyncServed.BegunSoon: bounds the worker's own steps and says whose step is next; that this thread is ever scheduled
  is left to the system.
- regcomp, regexec, sscanf and the files under /proc: patterns are predicates on paths, lines come parsed.
- RB_AUGMENT is empty in the source; RB_FOREACH_FROM, the other _FROM loops, SLIST and LIST would add easy members.
- Debug dumps, logging, JNI entry points, the libc wrappers, `fake_dlopen.c`, `utils.c`, `dlfunc.c` and the Java side.
