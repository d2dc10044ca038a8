# TextOS: a verified model of the kernel's memory, task and protocol structures

TextOS is a small x86-64 operating system: a kernel with paging, a heap, tasks, signals,
files and a network stack, and a libc with a shell on top. This project models the parts of
it whose correctness is not visible in any single function, and proves what they promise for
every input and every run.

| file | what it models |
|---|---|
| `HeapLayout.dfy`, `Heap.dfy` | the kernel heap: boundary tags, first fit, splitting, coalescing, growth |
| `Paging.dfy`, `SpaceEdits.dfy`, `TableCopy.dfy`, `Isolation.dfy`, `PageTable.dfy` | four-level page tables edited through their recursive slot, their copy at fork, and how parent and child stay apart |
| `RbTree.dfy` | the red-black tree: rotations, the insert fix-up, linking and searching, over nodes with parent pointers |
| `RbMend.dfy`, `RbDelete.dfy` | removal from that tree and its fix-up |
| `UserStack.dfy`, `ExecStack.dfy` | the initial user stack that `execve` builds and the C library takes apart |
| `ShellLex.dfy`, `ShellGrammar.dfy`, `ShellTree.dfy`, `ShellText.dfy`, `Shell.dfy` | the shell's parser, its grammar, its trees against the characters of the line, and the pass that writes NULs into its input |
| `FreeRuns.dfy`, `PageFrames.dfy` | the physical page allocator after memory has been remapped |
| `Lock.dfy` | the re-entrant lock over a binary semaphore, as interleaved steps of any number of tasks |
| `FileTable.dfy` | descriptor tables and reference counts over all tasks |
| `Scheduler.dfy` | round-robin scheduling |
| `Signal.dfy` | signal frames on the user stack and nested handlers |
| `Sha256.dfy` | SHA-256 as streaming code and as FIPS 180-4 defines it |
| `Calendar.dfy` | timestamps and dates |
| `Checksum.dfy` | the Internet checksum of ICMP, IP and TCP |
| `Basics.dfy` | types and laws of division that several of these share |

`dafny verify dfyconfig.toml` checks everything.

Conventions. Machine words are integers with explicit bounds and explicit wrap-around where it
matters; SHA-256 uses 32-bit vectors. State that the C code changes in place is a class whose
methods change its fields. A method's ghost parameters and results name the abstract state (a
block list, a tree, a token string); they are not part of the program. Results of code outside
the model (opening a node, what freshly mapped memory holds) are parameters.

## What turned out not to hold everywhere

Each of these has the exact condition as an if-and-only-if, and a lemma at an input unless the
condition is one by itself.

* Giving pages back to the physical allocator is exact unless the range ends below the first
  free extent, or is empty and touches no extent. In the first case the pages are counted as
  free but are in no extent (`FreeRuns.PutExact`; the input is `FreeRuns.LostPage`).
* Taking pages keeps the count exact unless the extent that is cut starts at address 0, which is
  also the code's failure value (`PageFrames.PageAllocator.AllocPages`; `FreeRuns.UncountedPage`).
  The boot code never lists memory at address 0, and without it the count is exact over all runs;
  only a caller that gives back pages at address 0 could bring such an extent about
  (`FreeRuns.PutPositive`).
* Memory from the start of the stack on is left alone unless the terminator of the executable's
  path falls there: no arguments, no environment, no padding, and a path whose length is a
  multiple of 8 (`ExecStack.AboveUntouched`; `ExecStack.TerminatorPastStack`).
* The executable path behind `AT_EXECFN` reads back exactly when that terminator is not
  overwritten by a string (`ExecStack.ExecFnReads`; `ExecStack.PathRunsOn` with "/bin/cat a b").
* Timestamps are exact precisely while the days of the common years fit 32 bits
  (`Calendar.StampIsSeconds`; `Calendar.FirstWrongYear` is 11769004).
* A current task that is ready when `task_schedule` is called is picked again, whoever else
  waits (`Scheduler.PicksItself`; `Scheduler.LeftWaiting`).
* Handling signals loses none if and only if no pending signal is blocked
  (`Signal.LostExactly`): blocked ones are dropped, although POSIX keeps them pending. A blocked
  SIGKILL is lost in this way (`Signal.BlockedKillLost`), since `sigprocmask` does not exempt it.
* A handler returns if and only if its signal was delivered on a user context: the code delivers on
  whatever was interrupted, also on a kernel context after a page fault inside a system call, and
  `sigreturn` then panics (`Signal.Process.SigReturn`, `Signal.RefusedExactly`;
  `Signal.KernelFrameRefused` with a frame saved with code segment 0x08).
* A default action is performed if and only if the table has one, which it does for the signals
  up to 31 except 9, 16 and 19; for others the code jumps through whatever stands there
  (`Signal.Process.HandleSignal`; `Signal.StopStrays`).
* Removing a node keeps a red-black tree if and only if the node that leaves its place is red, has
  a child, or is the last one (`RbDelete.Delete`; `RbDelete.BlackLeafBreaks`). What every run of
  insertions and removals keeps is the order, the parent links, a black root and that no red node
  has a red child.
* On such a tree a removal reads through a null sibling if and only if the fix-up, going up past
  black parents, siblings and nephews, comes to a place without one (`RbMend.FixupDel`,
  `RbDelete.Delete`; `RbDelete.RunsDry` is a red-black tree of seven nodes after four removals).
* The search for the place of a new node ends if and only if its key is not in the tree
  (`RbTree.Tree.Insert`).
* A tag word holds 32 bits and its readers lose three, so a block of 2^29 bytes or more does not
  read back (`HeapLayout.TagRoundTrip`; `HeapLayout.LargestTag`).
* A heap payload is as large as requested if and only if the request plus 15 does not wrap
  (`Heap.KernelHeap.Malloc`; `Heap.NeedWraps`). For eight such requests the rounded size is zero:
  then no list of blocks describes the heap any more, or, when no block is free, the search never
  ends (`HeapLayout.NoTags`, `Heap.NeverServed`).
* The text of a background job fits its 100 bytes if and only if its line starts at most 100 bytes
  before the end, as it does in every line that fits the prompt's buffer (`ShellTree.LineFits`;
  `ShellTree.LongBackground`).
* Opening a file stays inside the descriptor table if and only if a descriptor is free, a pipe if and
  only if two are, and `dup2` if and only if its source is not open or its target is a descriptor
  (`FileTable.Kernel.Open`, `FileTable.Kernel.Pipe`, `FileTable.Kernel.Dup2`).
* Taking pages reads through a null pointer if and only if no extent is left
  (`PageFrames.PageAllocator.AllocPages`).

## Model

| member | source | states |
|---|---|---|
| `HeapLayout.TagRoundTrip` | src/kernel/mm/heap.c:17-28 | size and use bit read back from a tag exactly when the size is below 2^29 |
| `HeapLayout.LargestTag` | src/kernel/mm/heap.c:17-28 | the first size that is lost |
| `HeapLayout.LiveDisjoint` | src/kernel/mm/heap.c:66-100 | the payloads of a tiled heap do not overlap |
| `HeapLayout.NoTags` | src/kernel/mm/heap.c:74-82 | tags of a block of no words leave memory that no list of blocks describes |
| `Heap.KernelHeap.constructor` | src/kernel/mm/heap.c:43-55 | prologue and epilogue give a valid empty heap |
| `Heap.KernelHeap.MergeNext` | src/kernel/mm/heap.c:162-175 | a free successor is absorbed, all payloads keep their contents |
| `Heap.KernelHeap.MergePrev` | src/kernel/mm/heap.c:176-183 | a free predecessor absorbs the block, all payloads keep their contents |
| `Heap.KernelHeap.Merge` | src/kernel/mm/heap.c:162-183 | two-sided coalescing leaves no two free neighbours and touches no payload |
| `Heap.JoinCoalesces` | src/kernel/mm/heap.c:162-183 | joining a block with its free neighbours restores "no two free neighbours" |
| `Heap.SmallHeapHolds` | src/kernel/mm/heap.c:162-183 | below 2^29 bytes in all, every merged size fits its tag |
| `Heap.KernelHeap.ExtendHeap` | src/kernel/mm/heap.c:185-202 | growth appends one free block, joined to a free last block, with the epilogue inside mapped memory |
| `Heap.KernelHeap.MapPages` | src/kernel/mm/heap.c:187-193 | whole pages are mapped until the new block fits, the old words unchanged |
| `Heap.KernelHeap.Place` | src/kernel/mm/heap.c:74-92 | a block is cut or taken whole; exactly one payload is added; a cut of no words leaves no layout |
| `Heap.KernelHeap.Search` | src/kernel/mm/heap.c:66-100 | the walk stops at the first block that fits and grows the heap once exactly when none does |
| `Heap.FirstFitKeeps` | src/kernel/mm/heap.c:66-100 | first fit keeps the blocks coalesced and changes none but the chosen one |
| `Heap.FitsFirst` | src/kernel/mm/heap.c:66-100 | the block that is cut is the first that serves, and all others stay |
| `Heap.NeedWraps` | src/kernel/mm/heap.c:70-70 | the requests for which the rounding wraps to nothing |
| `Heap.NeverServed` | src/kernel/mm/heap.c:94-98 | with a rounded size of zero and no free block, growing changes nothing the search looks at, however often it is repeated |
| `Heap.KernelHeap.Malloc` | src/kernel/mm/heap.c:66-100 | the result is 8-aligned, disjoint from every live payload, large enough exactly when the rounding does not wrap and less than 8 bytes larger, and no other payload changes a word; some list of blocks describes the heap afterwards if and only if the rounded size is not zero |
| `Heap.KernelHeap.Free` | src/kernel/mm/heap.c:142-160 | exactly the freed payload disappears; null and addresses above the heap are ignored |
| `Heap.KernelHeap.PayloadHasBlock` | src/kernel/mm/heap.c:142-160 | every live pointer can be freed |
| `Paging.RecursiveReaches` | src/kernel/mm/map.c:14-53 | for every address and level, the recursive address reaches the table a direct walk reaches |
| `Paging.PathIsDigits` | src/kernel/mm/map.c:14-41 | the index path of an address is its page number in base 512 |
| `Paging.PathBits` | src/kernel/mm/map.c:14-41 | the four indices are bits 47 to 39, 38 to 30, 29 to 21 and 20 to 12 of the address |
| `PageTable.RightsExact` | src/kernel/mm/map.c:60-82 | the effective user and write rights of a page are those of its own entry |
| `PageTable.QueryIsFlat` | src/kernel/mm/map.c:108-122 | a query never faults and answers from the flat map: the page's frame plus the offset |
| `PageTable.MapGrants` | src/kernel/mm/map.c:84-94 | a mapped page may be written and used from user mode exactly as its flags say, and leads to its own frame |
| `PageTable.UnmapAbsent` | src/kernel/mm/map.c:96-106 | an unmapped page is absent and may not be used at all |
| `PageTable.ForkShares` | src/kernel/mm/map.c:184-228 | after fork no user page may be written, while frame, presence and user access are as before; kernel pages keep all rights |
| `PageTable.AddressSpace.constructor` | src/kernel/mm/map.c:124-134 | a cleared root with its recursive slot is a valid space in which no page is mapped |
| `PageTable.AddressSpace.NewTable` | src/kernel/mm/map.c:60-82 | a linked table is cleared and changes no translation |
| `PageTable.AddressSpace.Walk` | src/kernel/mm/map.c:60-82 | the walk returns the entry of the page, creating tables without changing any translation |
| `PageTable.AddressSpace.Map` | src/kernel/mm/map.c:84-94 | exactly the given pages change, each to its own frame and with the write and user rights of its flags; all other translations stay; for user pages only user tables of this space are written |
| `PageTable.AddressSpace.Unmap` | src/kernel/mm/map.c:96-106 | exactly the given pages become absent; for user pages only user tables of this space are written |
| `SpaceEdits.LinkedSpace` | src/kernel/mm/map.c:60-82 | linking a fresh table keeps the tables a tree of distinct frames |
| `SpaceEdits.OpenedSpace` | src/kernel/mm/map.c:60-82 | making a table user accessible changes no translation |
| `SpaceEdits.LeafSetSpace` | src/kernel/mm/map.c:84-106 | setting one page's entry changes that page and no other |
| `PageTable.AddressSpace.CopyPages` | src/kernel/mm/map.c:184-220 | page entries lose write permission on both sides and keep frame, presence and all other flags |
| `PageTable.AddressSpace.CopyTable` | src/kernel/mm/map.c:184-220 | a table is copied with everything below it into fresh frames, as many as there are tables; it fails exactly when there are fewer |
| `PageTable.AddressSpace.CopyPgt` | src/kernel/mm/map.c:222-228 | succeeds exactly when there are as many free frames as tables; then every user page leads parent and child to the same frame as before, with the same user access, and neither may write it; they share no user table, share the kernel half but for the recursive slot, and no other parent entry changes |
| `TableCopy.ChildLeaf` | src/kernel/mm/map.c:184-228 | every page of the child has the parent's entry, in the user half without write permission and otherwise the same |
| `TableCopy.ParentSpace` | src/kernel/mm/map.c:184-228 | the parent's tables stay a tree of distinct frames |
| `TableCopy.ChildSpace` | src/kernel/mm/map.c:184-228 | the child's tables are a tree of distinct frames with its own recursive slot |
| `Isolation.ForkApart` | src/kernel/mm/map.c:184-228 | no table that translates user pages of the parent is a table of the child, nor the other way round |
| `Isolation.EditKeepsPair` | src/kernel/mm/map.c:84-106 | mapping and unmapping user pages in one of the two changes no page of the other, and they stay apart |
| `Isolation.Isolated` | src/kernel/mm/map.c:84-106 | so over every interleaving of such edits by parent and child |
| `Isolation.PagesStay` | src/kernel/mm/map.c:84-106 | whatever the one maps and unmaps, the other finds the pages it had |
| `RbTree.Tree.RotateLeft` | src/kernel/klib/rbtree.c:13-29 | the pointer writes turn the subtree, parent links consistent, nodes outside of the tree untouched |
| `RbTree.Tree.RotateRight` | src/kernel/klib/rbtree.c:31-47 | the mirror image |
| `RbTree.Tree.FixLeft` | src/kernel/klib/rbtree.c:54-82 | one round on the left keeps the order and either finishes or moves two levels up |
| `RbTree.Tree.FixRight` | src/kernel/klib/rbtree.c:83-110 | one round on the right keeps the order and either finishes or moves two levels up |
| `RbTree.Tree.Fixup` | src/kernel/klib/rbtree.c:54-110 | the loop ends in a tree that obeys the rules with the same in-order sequence, with equal black heights if they were equal |
| `RbTree.PlugRb` | src/kernel/klib/rbtree.c:54-110 | a subtree of the right height in a valid surrounding gives equal black heights and no red-red edge |
| `RbTree.UnplugRb` | src/kernel/klib/rbtree.c:54-110 | and conversely, at every place of a valid tree |
| `RbTree.Tree.Link` | src/kernel/klib/rbtree.c:208-221 | a node is hung into an empty slot, or takes over the place and children of the node there |
| `RbTree.Tree.Replace` | src/kernel/klib/rbtree.c:194-206 | the replacement has the colour, children and parent of the node it replaces |
| `RbTree.Tree.Insert` | src/kernel/mm/mman/vma.c:69-90 | the search ends exactly when the key is new; then search, link and fix-up give a search tree whose in-order sequence is the old one plus the node, with a black root and no red-red edge, and a red-black one if the old one was |
| `RbDelete.SpliceOut` | src/kernel/klib/rbtree.c:234-255 | the only child takes the node's place, parent links consistent |
| `RbDelete.Minimum` | src/kernel/klib/rbtree.c:112-117 | the leftmost node below a place |
| `RbDelete.Succeed` | src/kernel/klib/rbtree.c:256-285 | the successor is spliced out and takes the node's place, children and colour |
| `RbMend.LowerLeft` | src/kernel/klib/rbtree.c:127-133 | a red sibling is turned above the parent |
| `RbMend.RedSiblingLeft` | src/kernel/klib/rbtree.c:127-133 | which keeps the order and the rules on colours |
| `RbMend.BlackNephewsLeft` | src/kernel/klib/rbtree.c:134-139 | so does blackening one level up, once the parent is black |
| `RbMend.NearNephewLeft` | src/kernel/klib/rbtree.c:142-148 | so does turning a red near nephew above the sibling |
| `RbMend.FarNephewLeft` | src/kernel/klib/rbtree.c:149-153 | and turning the sibling above the parent ends the loop with a tree that obeys them |
| `RbMend.MendLeft` | src/kernel/klib/rbtree.c:134-154 | the round goes one level up or ends |
| `RbMend.RoundLeft` | src/kernel/klib/rbtree.c:124-155 | one round fails exactly when there is no sibling, at once or under a red one; otherwise it keeps the order, comes nearer to the end, and fails later exactly if it would have |
| `RbMend.RoundRight` | src/kernel/klib/rbtree.c:156-187 | the mirror image |
| `RbMend.FixupDel` | src/kernel/klib/rbtree.c:119-192 | fails exactly when some round finds no sibling; otherwise it ends with the same order, a black root and no red-red edge; on a red node only the last assignment takes effect |
| `RbDelete.ChildIsRed` | src/kernel/klib/rbtree.c:287-288 | in a red-black tree the fix-up is only ever called for a red node |
| `RbDelete.SpliceRules` | src/kernel/klib/rbtree.c:228-289 | splicing out keeps the rules if and only if the node is red, has a child, or is the last one |
| `RbDelete.Delete` | src/kernel/klib/rbtree.c:228-289 | fails exactly when a fix-up comes to a place without a sibling, never from a red-black tree; otherwise the in-order sequence loses exactly the node, the root is black and no red node has a red child; from a red-black tree the result is one under the exact condition |
| `RbDelete.PlaceOf` | src/kernel/klib/rbtree.c:228-289 | every node of a tree can be handed to a removal |
| `RbDelete.BlackLeafBreaks` | src/kernel/klib/rbtree.c:287-288 | a tree of three black nodes that loses its balance |
| `RbDelete.RunsDry` | src/kernel/klib/rbtree.c:119-134 | a red-black tree of seven nodes whose fifth removal reads through a null sibling |
| `ExecStack.Spaces` | src/kernel/user/exec.c:109-146 | pointer arrays and strings do not overlap and the stack ends 16-byte aligned |
| `ExecStack.UserMemory.CopyArg` | src/kernel/user/exec.c:41-61 | strings are copied in order and the pointer array points at them, null-terminated |
| `ExecStack.UserMemory.Auxv` | src/kernel/user/exec.c:81-106 | the auxiliary vector and its two strings are laid out, and it fails exactly when the path's terminator falls on unmapped memory; without `put` they are only measured |
| `ExecStack.UserMemory.Build` | src/kernel/user/exec.c:109-146 | the whole stack is built, 16-byte aligned; below it and beyond its first byte nothing changes, and that byte only as stated; it fails exactly when the path's terminator falls on unmapped memory |
| `ExecStack.AboveUntouched` | src/kernel/user/exec.c:81-106 | nothing from the start of the stack on is changed, if and only if the path's terminator does not fall there or finds a zero |
| `ExecStack.TerminatorPastStack` | src/kernel/user/exec.c:81-106 | a path of sixteen bytes without arguments and environment |
| `ExecStack.PathRunsOn` | src/kernel/user/exec.c:81-106 | "/bin/cat a b" does not read its own path back |
| `ExecStack.ReadsBack` | src/kernel/user/exec.c:109-146 | from the final stack pointer, argc, all argv and envp strings and the auxiliary vector read back |
| `ExecStack.ExecFnReads` | src/kernel/user/exec.c:81-106 | the path string reads back exactly when its terminator is not overwritten |
| `ExecStack.PlatformReads` | src/kernel/user/exec.c:81-106 | the platform name reads back |
| `ExecStack.LibcStart` | src/app/libc/base/libc.c:64-73 | the scan finds argc, argv, envp and the auxiliary vector |
| `ExecStack.GetAuxVal` | src/app/libc/misc/auxv.c:3-10 | the loop returns the value of the first pair of that type, zero if there is none |
| `ExecStack.AuxFound` | src/kernel/user/exec.c:91-105 | each of the thirteen types, by number, is looked up to its own value, and every other type to zero |
| `ExecStack.ExecThenStart` | src/app/libc/base/libc.c:64-73 | what a program reads at start-up is what `execve` was given: argc, argv, envp, the value under every type of the auxiliary vector, the platform name, and the path under the exact condition |
| `ShellLex.WordsAreRuns` | src/app/sh.c:1132-1175 | the words of a line are exactly its maximal runs of word characters, in order |
| `ShellGrammar.LineSound` | src/app/sh.c:1206-1297 | a parse is a derivation of exactly the tokens consumed |
| `ShellGrammar.LineComplete` | src/app/sh.c:1206-1297 | every derivation is found |
| `ShellGrammar.AcceptsGrammar` | src/app/sh.c:1193-1204 | the parser accepts exactly the grammar, which is unambiguous |
| `ShellTree.LineWords` | src/app/sh.c:1206-1297 | a command holds the words of its derivation, each exactly as often |
| `ShellTree.LineFits` | src/app/sh.c:1119-1128 | the texts of all background jobs fit exactly when each of their lines starts at most 100 bytes before the end |
| `ShellTree.LongBackground` | src/app/sh.c:1119-1128 | lines of up to 100 bytes always fit, longer ones sent to the background never |
| `ShellTree.RedirectsThenItems` | src/app/sh.c:1272-1297 | reading redirects ahead of arguments changes nothing about the argument list |
| `ShellText.LexScanned` | src/app/sh.c:1132-1175 | tokens are spelled as their kinds say, in order, with only white space between them |
| `ShellText.OperatorFits` | src/app/sh.c:1236-1257 | '<' reads on descriptor 0, '>>' appends and a single '>' truncates on descriptor 1, by the characters in front of the word |
| `ShellText.WholeShown` | src/app/sh.c:1206-1297 | a command is what the characters of its line show: arguments in order, each redirect by its operator, '|' between the parts of a pipe, ';' between those of a list, '&' behind a job with its text |
| `Shell.Parser.GetToken` | src/app/sh.c:1135-1175 | the cursor passes exactly the next token and the white space around it |
| `Shell.Parser.Peek` | src/app/sh.c:1177-1186 | the answer is about the next token, which stays ahead |
| `Shell.Parser.ParseRedirs` | src/app/sh.c:1236-1257 | redirects wrap the command in the order they are read, with the mode and descriptor their operators stand for |
| `Shell.Parser.ParseArgs` | src/app/sh.c:1284-1294 | arguments are filled in underneath the redirects, and fewer than ten are accepted |
| `Shell.Parser.ParseSimple` | src/app/sh.c:1272-1297 | a command with arguments is the tree of its derivation, with its vector null-terminated |
| `Shell.Parser.ParseBlock` | src/app/sh.c:1259-1270 | a parenthesised line with redirects is the tree of its derivation |
| `Shell.Parser.ParseExec` | src/app/sh.c:1272-1297 | success exactly when the token parser succeeds, with its tree |
| `Shell.Parser.ParsePipe` | src/app/sh.c:1224-1234 | likewise for pipes |
| `Shell.Parser.ParseLine` | src/app/sh.c:1206-1222 | likewise for lines, with the text of background jobs; it ends because the cursor moves towards the end |
| `Shell.WordsSurvive` | src/app/sh.c:1300-1342 | each word reads back as a C string equal to its text in the line |
| `Shell.Parser.NulTerminate` | src/app/sh.c:1300-1342 | exactly the ends of the command's words are overwritten |
| `Shell.Parser.ParseCmd` | src/app/sh.c:1193-1204 | a line is accepted exactly when the grammar derives it; the tree is what its characters show, redirects included; every word occurs exactly once in it and reads back from the overwritten buffer; the texts of background jobs fit under the exact condition |
| `FreeRuns.TakeExact` | src/kernel/mm/pmm.c:46-83 | cutting an extent removes exactly the bytes handed out, all free before, and keeps the list sorted and disjoint |
| `FreeRuns.PutExact` | src/kernel/mm/pmm.c:148-203 | giving a range back adds exactly its bytes, if and only if it is not below all extents and not an empty range in a gap |
| `FreeRuns.LostPage` | src/kernel/mm/pmm.c:148-203 | a concrete page that is lost |
| `FreeRuns.PutPositive` | src/kernel/mm/pmm.c:148-203 | an extent at address 0 appears only when one is given back |
| `FreeRuns.UncountedPage` | src/kernel/mm/pmm.c:46-83 | a concrete page that is taken and not counted |
| `PageFrames.PageAllocator.AllocPages` | src/kernel/mm/pmm.c:46-83 | first fit on the linked list, failing exactly when it is empty; list and count stay consistent, and without the assumption on address 0 under the exact condition |
| `PageFrames.PageAllocator.IsFree` | src/kernel/mm/pmm.c:129-146 | the loop detects exactly an overlap with some extent |
| `PageFrames.PageAllocator.FreePages` | src/kernel/mm/pmm.c:148-203 | the range is joined or inserted at the first place it touches or follows; list and count stay consistent under the exact condition, and no extent at address 0 appears unless one is given back |
| `PageFrames.PageAllocator.PutBack` | src/kernel/mm/pmm.c:155-199 | the search loop and its three cases on the linked nodes |
| `Lock.StepInv` | src/kernel/lock.c:13-75 | every step of every task keeps the invariant |
| `Lock.Guarantees` | src/kernel/lock.c:13-75 | over all runs: mutual exclusion, no failed assertion, count equals nesting depth, no lost wake-up, and a task that can let waiters in is never blocked |
| `FileTable.DropCounted` | src/kernel/file.c:408-414 | letting go of a descriptor keeps every count equal to the number of descriptors |
| `FileTable.PointCounted` | src/kernel/file.c:516-532 | so does pointing a free descriptor at a file |
| `FileTable.Kernel.FdGet` | src/kernel/file.c:11-17 | the least free descriptor, or -EMFILE when there is none |
| `FileTable.Kernel.DecRef` | src/kernel/file.c:408-414 | the file is closed and freed exactly when the last descriptor goes |
| `FileTable.Kernel.Open` | src/kernel/file.c:50-96 | a new file with one descriptor; every failure leaves tables and counts as they were; it leaves the table exactly when no descriptor is free |
| `FileTable.Kernel.Close` | src/kernel/file.c:416-426 | one descriptor is emptied; the file is closed exactly if it was the last one |
| `FileTable.Kernel.Dup2` | src/kernel/file.c:516-532 | the target shares the file and what it held is let go; -EBADF and -EINVAL change nothing; it leaves the table exactly when the source is open and the target is no descriptor |
| `FileTable.Kernel.Dup` | src/kernel/file.c:534-539 | the least free descriptor shares the file |
| `FileTable.Kernel.Pipe` | src/kernel/file.c:541-581 | two new files in the two least free descriptors, or no change; it leaves the table exactly when fewer than two are free |
| `FileTable.Kernel.Fork` | src/kernel/task.c:207-214 | the child shares every descriptor and all counts stay exact |
| `FileTable.Kernel.Reap` | src/kernel/task.c:172-181 | a dead task's descriptors are let go; every file is closed once, when its last descriptor goes |
| `Scheduler.OnlyCurrentRuns` | src/kernel/task.c:472-501 | over all runs, no task but the current one is running |
| `Scheduler.Nearer` | src/kernel/task.c:435-446 | a call that passes over a ready task comes strictly nearer to it |
| `Scheduler.PickedSoon` | src/kernel/task.c:472-501 | a ready task that nobody blocks is made current by one of any N - 1 calls |
| `Scheduler.CallHands` | src/kernel/task.c:472-501 | a call makes a running task it leaves ready, the ready task it enters running, and changes no other slot |
| `Scheduler.RunsAgain` | src/kernel/task.c:472-501 | a running task that is switched away from and that nobody blocks is made current again by one of the next N - 1 calls |
| `Scheduler.WokenRuns` | src/kernel/task.c:530-537 | so is a task that is woken |
| `Scheduler.BlockedUntilWoken` | src/kernel/task.c:516-528 | a blocked task is not made current until it is woken |
| `Scheduler.PicksItself` | src/kernel/task.c:435-446 | the current task is picked again exactly when it is ready |
| `Scheduler.LeftWaiting` | src/kernel/task.c:435-446 | two ready tasks, of which the current one is picked |
| `Scheduler.TaskTable.GetNext` | src/kernel/task.c:435-446 | the cyclic scan finds the nearest ready slot, or none exactly when no slot is ready |
| `Scheduler.TaskTable.TaskSchedule` | src/kernel/task.c:472-501 | one scheduling step, slot by slot |
| `Scheduler.TaskTable.TaskBlock` | src/kernel/task.c:516-528 | a blocking step, followed by a scheduling step when the task is the current one; the task is blocked afterwards |
| `Scheduler.TaskTable.TaskUnblock` | src/kernel/task.c:530-537 | an unblocking step |
| `Signal.FlagsRoundTrip` | src/kernel/arch/x86_64/cpu.h:21-25 | the flag bit and the signed system call number read back from one word |
| `Signal.SetRoundTrip` | src/kernel/signal.c:26-47 | a signal set reads back from its 64-bit word |
| `Signal.OneBit` | src/kernel/signal.c:26-47 | signal i is bit i - 1 of the word |
| `Signal.FramesApart` | src/kernel/signal.c:151-153 | a nested frame ends more than a hundred bytes below every outer one |
| `Signal.Process.Deliver` | src/kernel/signal.c:138-189 | the frame lies below the red zone and holds the interrupted context, whatever it is; outer frames stay intact |
| `Signal.Process.HandleSignal` | src/kernel/signal.c:115-190 | SIGKILL if it is live, else the lowest pending unblocked signal is ignored, defaulted or delivered, exactly those without a default action go astray, and no signal is lost if and only if none pending is blocked |
| `Signal.LostExactly` | src/kernel/signal.c:120-121 | no signal is lost if and only if none that is pending is blocked |
| `Signal.BlockedKillLost` | src/kernel/signal.c:120-121 | a blocked SIGKILL is dropped and nothing happens |
| `Signal.StopStrays` | src/kernel/signal.c:76-107 | SIGSTOP has no default action |
| `Signal.RefusedExactly` | src/kernel/signal.c:312-318 | the checks refuse a frame exactly when it was not pushed on a user context |
| `Signal.KernelFrameRefused` | src/kernel/signal.c:312-318 | a frame pushed on a kernel context is refused |
| `Signal.Process.SigReturn` | src/kernel/signal.c:302-345 | panics exactly when the frame was not pushed on a user context; otherwise registers, mask and current signal are those saved, or those of a restarted system call |
| `Signal.Process.Restart` | src/kernel/signal.c:326-333 | the saved instruction pointer moves back over the system call and its number is reloaded |
| `Signal.RestoredResumes` | src/kernel/signal.c:326-333 | a return leaves the registers at delivery, or those with the instruction pointer two bytes back modulo 2^64 and the call number in rax |
| `Signal.Process.SigProcMask` | src/kernel/signal.c:366-385 | block, unblock and set, member by member; unknown requests change nothing |
| `Signal.MatchingReturn` | src/kernel/signal.c:302-345 | in every run, the return that matches a delivery brings back the context at that delivery, and only a delivery on a user context has one |
| `Sha256.PadIsLeast` | src/app/sha256sum.c:108-126 | the padding is the least that fills a block, as section 5.1.1 of FIPS 180-4 asks |
| `Sha256.PadIsLast` | src/app/sha256sum.c:108-138 | the one or two last blocks of the code are the end of the padded message |
| `Sha256.LengthValue` | src/app/sha256sum.c:128-138 | read as a big-endian number, the stored length is the length in bits modulo 2^64 |
| `Sha256.FoldSnoc` | src/app/sha256sum.c:92-105 | one more block is one more compression |
| `Sha256.CubeRoots` | src/app/sha256sum.c:8-17 | the round constants are the first 32 fraction bits of the cube roots of the first 64 primes |
| `Sha256.SquareRoots` | src/app/sha256sum.c:35-47 | the initial state holds those of the square roots of the first eight |
| `Sha256.BigSigmaBits` | src/app/sha256sum.c:27-33 | which bits the lowest and highest bit of the large functions are made of |
| `Sha256.SmallSigmaBits` | src/app/sha256sum.c:27-33 | likewise for the small functions |
| `Sha256.RoundMoves` | src/app/sha256sum.c:67-80 | where a round moves its variables |
| `Sha256.Context.constructor` | src/app/sha256sum.c:35-47 | an empty context stands for the empty message |
| `Sha256.Context.Expand` | src/app/sha256sum.c:53-56 | the loop computes the message schedule of section 6.2.2 of FIPS 180-4 |
| `Sha256.Context.Transform` | src/app/sha256sum.c:49-89 | the in-place rounds are the compression function of section 6.2.2 of FIPS 180-4 |
| `Sha256.Context.Update` | src/app/sha256sum.c:92-105 | the context stands for the old message followed by the new bytes |
| `Sha256.Context.Final` | src/app/sha256sum.c:108-153 | the digest is the hash of the message, for all messages below 2^61 bytes |
| `Sha256.HashChunks` | src/app/sha256sum.c:155-165 | however the input is split, the digest is the hash of the whole |
| `Calendar.DaysBeforeCounts` | src/kernel/klib/time.c:41-48 | the year-by-year count equals the closed form |
| `Calendar.DaysAreNumbers` | src/kernel/klib/time.c:8-59 | days counted by year and month table equal the Gregorian day number, which uses no table |
| `Calendar.LeapDaysExact` | src/kernel/klib/time.c:41-48 | so does the unsigned 64-bit expression, wraps before 1972 and 2000 included |
| `Calendar.StampIsSeconds` | src/kernel/klib/time.c:35-59 | the timestamp is the number of seconds if and only if the common days fit 32 bits |
| `Calendar.FirstWrongYear` | src/kernel/klib/time.c:35-59 | the first year with a wrong timestamp, and the one before it |
| `Calendar.Injective` | src/kernel/klib/time.c:35-59 | different valid dates have different numbers of seconds |
| `Calendar.YearOf` | src/kernel/klib/time.c:66-81 | the loop over years, and exactly when its counter fits an int |
| `Calendar.MonthOf` | src/kernel/klib/time.c:83-103 | the loop over months |
| `Calendar.TimeRtctm` | src/kernel/klib/time.c:62-109 | the result is the valid date with that number of seconds; its year fits an int exactly below a given day |
| `Calendar.DateBack` | src/kernel/klib/time.c:35-109 | dates survive the round trip |
| `Calendar.StampBack` | src/kernel/klib/time.c:35-109 | timestamps survive the round trip exactly for the years that fit |
| `Checksum.TwoSteps` | src/kernel/net/icmp.c:17-18 | two folding steps are a complete end-around-carry fold of every 32-bit sum |
| `Checksum.FoldedIsResidue` | src/kernel/net/ip.c:15-16 | the fold is the residue modulo 65535 |
| `Checksum.NetworkOrder` | src/kernel/net/icmp.c:5-20 | the checksum computed over little-endian words is, byte for byte, that of RFC 1071 in network order |
| `Checksum.AddWords` | src/kernel/net/icmp.c:7-15 | the loop yields the low 32 bits of the sum, odd lengths included |
| `Checksum.Icmp` | src/kernel/net/icmp.c:5-20 | the checksum of RFC 1071 over the 32-bit sum |
| `Checksum.Ip` | src/kernel/net/ip.c:6-19 | the checksum of the first twenty bytes |
| `Checksum.Tcp` | src/kernel/net/tcp.c:5-32 | the checksum over segment and pseudo-header |
| `Checksum.PseudoSum` | src/kernel/net/tcp.c:5-12 | what addresses, protocol 6 and the length in network order add to the sum |
| `Checksum.SumFits` | src/kernel/net/icmp.c:7-15 | up to 65537 words add up without leaving 32 bits |
| `Checksum.StoredVerifies` | src/kernel/net/icmp.c:5-20 | a checksum stored in the zeroed field makes the recomputed one zero |
| `Checksum.TcpVerifies` | src/kernel/net/tcp.c:5-32 | sender and receiver agree on a segment |
| `Checksum.IcmpVerifies` | src/kernel/net/icmp.c:5-20 | sender and receiver agree on a message |
| `Checksum.IpVerifies` | src/kernel/net/ip.c:6-19 | sender and receiver agree on a header |

## Left out

- `realloc` and `calloc` of the heap: the in-place test of `realloc` compares the request with a size that includes the tags.
- Heap.KernelHeap.Malloc: requires that the grown block fits a tag (below 2^29 bytes), because a larger one would not read back, and excludes a rounded size of zero without a free block, because the search then never ends.
- Heap.KernelHeap.Free: requires a live pointer, null or an address above the heap, because the code trusts every other address.
- Mapping of memory under the heap and the supply of table frames: fresh frames come from a set, and the code gives up when it is empty.
- PageTable.AddressSpace.Map: translations in the recursive slot itself are not part of the flat map, because they are the tables.
- PageTable.AddressSpace.CopyPgt: the code has no failure result and does not expect the frames to run out; assumes that non-zero entries of user tables above the lowest level are present, as the code does.
- Huge pages, TLB invalidation, `clear_pgt`, dirty scanning, the temporary mapping window and boot-time tables.
- RbMend.FixupDel: nothing is stated about black heights for trees in which they already differ.
- RbTree.Tree.Insert: a search that never ends is reported where it stops moving.
- RbTree.Tree.Link: over an occupied slot it keeps the shape only; no caller follows that with a fix-up.
- ExecStack.UserMemory.Build: requires an 8-aligned start and a mapped stack with room for everything below it, because the code writes without a check; string totals are unbounded integers where the code uses `int`.
- ELF loading, `duparg`, and the mapping of heap and stack areas in `execve`.
- Line editing, job control and command execution in the shell.
- Shell.Parser.ParseLine: the text of a background job is the rest of the line; `strncpy` leaves it without a terminator and writes past its 100 bytes when it is longer, and those writes are not modelled.
- PageFrames.PageAllocator.FreePages: addresses are unbounded integers; the early mode with nodes inside free pages, `pmm_allochard` and boot memory maps are not modelled.
- Lock.Guarantees: tasks release only what they hold, and signals that wake waiters are not modelled.
- FileTable.Kernel.Open: what a store outside the descriptor table overwrites is not modelled; likewise for Pipe and Dup2.
- `F_DUPFD`, sockets, `select`, `poll` and vectored I/O; path walking and the contents of files.
- Stopping and continuing tasks, `wait4` status matching, `ptrace`, time slices and timers in the scheduler.
- Signal.Process.HandleSignal: default actions are reported, not performed, and so is a jump to one that does not exist; the frame is stored by one block write instead of one store per field.
- Signal.Process.Deliver: requires the frame to lie in mapped memory, because the code writes there without a check; user and kernel stacks are one memory.
- Signal.Process.UserRuns: handlers leave the frames on the stack intact and keep the stack pointer below the topmost one.
- Sha256.Context.Transform: the shift-and-or that assembles a big-endian word is written as a sum of disjoint bytes.
- Calendar.TimeRtctm: beyond the stated day the `int` year counter of the code overflows, which is undefined; the model goes on counting.
- Drivers, ACPI, APIC, PCI, video, boot code, the file systems, formatted output, network send and receive paths, and all assembly.
