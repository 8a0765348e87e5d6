# Models of the OS labs and of three Bash components

The repository holds operating-system labs (a buddy allocator, a bounded-buffer monitor, dining
philosophers) and a copy of GNU Bash 4.2. This project models the parts of it whose correctness is not
visible in any one function, and proves what they are for. `dafny verify dfyconfig.toml` checks all of it.

**Buddy allocator** (`buddy/buddy.c` on `buddy/list.h`). `Links` has the intrusive circular lists: the
`next` and `prev` fields are arrays, and the family of lists they form is the abstract state. `BuddyTree`
and `BuddySpec` have the specification: memory is a binary tree of blocks, allocating carves the lowest
block of the smallest sufficient order, freeing merges. `BuddyState` relates page records and lists to
the tree, and `Buddy` is the allocator itself, working in place. `block_size` of a page inside a block is
stale; the records are required to be right on block heads only, and the page in buddy position is shown
to be a head. The laws follow from one fact: *the live blocks determine the whole state* (`HistoryIndependence`).
Addresses are byte offsets from `g_memory`, pages are indices, orders are relative to `MIN_ORDER`, and the
number of orders is a parameter.

**Bounded-buffer monitor** (`pthreads_pc/producer_consumer.c`). `BoundedQueue` has the circular queue, on
values and in place; `Monitor` has the threads as a step system over the mutex, the two conditions and
the shutdown rule, for any number of threads, queue size and amount of work.

**Dining philosophers** (`pthreads_dp/`). `Philosophers` covers locking left-then-right and locking by
parity, `Waiter` the monitor version; `Table` says who shares which chopstick. The bounds on
runs of threads are sums of ranks, one for each thread, as in `Ranking`.

**Brace expansion** (`ipc/bash-4.2/braces.c`). `Braces` has the scanners and loops next to the recursive
functions they compute, `BraceTerms` the sequence expressions such as `{1..9..2}` down to the text of each
term, and `BraceWords` words as trees, with the theorem about their expansion. Besides alternations and
sequences a word may hold quoted text, escaped characters, `${...}`, `$(...)` and pairs of braces without a
comma, all of which stay as they are; what these are is spelled out there and not taken from the scanner.

**Arithmetic** (`ipc/bash-4.2/expr.c`). `Arithmetic` has the operators and numbers; `OperatorLaws` and
`Numerals` say what they mean: division by its remainder, bitwise operators bit by bit, numbers by the
positional value of their digits. `Expr` has the tokenizer and the recursive descent as functions on an
explicit state, `ExprMachine` the same over mutable fields with the stack of saved contexts, and `ExprEffects`
what an operand that is not wanted may change. `ExprTrees` has expressions as trees, with variables, `=`,
`op=`, `++` and `--`, their meaning as a change of the variables from left to right, and the theorem that
evaluating the printed tree has this meaning; the value of a variable may itself be the text of a tree, down
to the limit of nesting. `ExprGrammar` has the language as it is documented, with operators named by their
spelling and listed in groups, and the theorem that every text of it evaluates as the groups say.

**Sparse arrays** (`ipc/bash-4.2/array.c`). `SparseEntries` has the operations on sorted sequences of
entries and relates them to finite maps; `SparseArray` has the linked lists with the one remembered
element shared by all arrays.

Four things the code does not do as one might expect:

- An operand of `?:` that is not selected can still change variables. The comment at
  `ipc/bash-4.2/expr.c:170` says `noeval` means that no assignment is done, but `expcond` reads the first
  token of an arm before it raises `noeval` (`ipc/bash-4.2/expr.c:550-557`, `565-573`), and reading a
  variable evaluates its value. With `x` set to the text `++y`, evaluating `0?x:0` increments `y`
  (`UntakenArmAssigns`). `UntakenArmPureIff` gives the exact condition for one arm, `HarmlessIff` the one on the
  variables under which no such arm has an effect, and `QuietEnvArmPure` one that can be read off their texts:
  no value contains an assignment operator, `++` or `--`. The operands of `&&` and `||` do not have the
  problem (`SkippedOperandPure`).
- The comment at `ipc/bash-4.2/braces.c:198-199` says that braces without an unquoted comma are left alone, but the
  search for a comma only looks at backslashes (`CommaIff`), not at quotes. With a quoted comma and two dots the
  braces are taken for an alternation with one branch and disappear: `{"a,b"..c}` becomes `"a,b"..c`
  (`QuotedComma`).
- The comment at `ipc/bash-4.2/expr.c:53-56` says that within a group evaluation is left-to-right except for
  assignments, but `exppower` (`ipc/bash-4.2/expr.c:819-838`) groups `**` to the right, and so does the model.
- Freeing a block that is the whole of memory computes the address one past the end and reads the entry
  after the last one of `g_pages` (`buddy/buddy.c:240`). One request is enough to get such a block
  (`WholeMemoryLive`; `WholeMemoryTrap` is a client that does it). The model gives the page table one more
  entry with arbitrary contents. The test of `buddy_combine` then says to merge if and only if that entry looks like a free block of the size of memory
  (`LookAlikeMerges`, an input in `LookAlikeRecords`), although there is no buddy; otherwise the merge decision
  is right (`MergeDecision`), and no other block ever leads to that entry (`BuddyPastTable`).

## Model

| member | source | states |
|---|---|---|
| Links.InsertLinked | buddy/list.h:40-48 | the four stores of `__list_add` insert the node between its neighbours in the abstract list and leave every other list of the family as it was |
| Links.CutDisjoint | buddy/list.h:83-99 | entries taken out are in no list any more, and the remaining lists are still disjoint |
| Links.CutLinked | buddy/list.h:83-87 | the two stores of `__list_del` remove exactly the entries between the two nodes, for one entry or many |
| Links.OutsideLinked | buddy/list.h:94-99 | poisoning the links of a removed entry affects no list |
| Links.ListTable.InitListHead | buddy/list.h:30-32 | a new empty list, the others unchanged |
| Links.ListTable.InsertBetween | buddy/list.h:40-48 | the insertion, carried out in place |
| Links.ListTable.ListAdd | buddy/list.h:58-61 | inserts at the front |
| Links.ListTable.ListAddTail | buddy/list.h:71-74 | inserts before the given node; before the head means at the end |
| Links.ListTable.Unlink | buddy/list.h:83-87 | removal in place |
| Links.ListTable.ListDel | buddy/list.h:94-99 | removes one entry, which is then in no list |
| Links.ListTable.ListEmpty | buddy/list.h:138-141 | true exactly for a list without entries |
| Powers.FlipBitIsXor | buddy/buddy.c:29-36 | the buddy address inverts the bit of the block's order and no other |
| Powers.FlipBitScales | buddy/buddy.c:29-36 | the exclusive or on byte addresses is the exclusive or on page indices |
| Powers.AlignedIsDivisible | buddy/buddy.c:29-36 | alignment by halving is divisibility by the block size |
| BuddyTree.FreeListSorted | buddy/buddy.c:250-262 | free lists are strictly address-ordered |
| BuddyTree.BuddyRegion | buddy/buddy.c:118-146 | the page in buddy position of a block starts the other half of its parent |
| BuddyTree.BuddyIsHead | buddy/buddy.c:118-146 | that page is the head of a current block, and its record shows a free block of the same order exactly when the whole buddy is free |
| BuddySpec.AllocLaw | buddy/buddy.c:190-222 | allocating adds exactly one live block of the needed order, aligned to its size, inside memory, at an address that was not live, and keeps free buddies merged |
| BuddySpec.ReleaseLaw | buddy/buddy.c:233-264 | freeing removes exactly the block at that address from the live blocks and leaves no two free buddies of the same order |
| BuddySpec.HistoryIndependence | buddy/buddy.c:83-264 | two coalesced states with the same live blocks are equal, free lists and their order included |
| BuddySpec.AllocThenFree | buddy/buddy.c:206-262 | freeing what was just allocated gives back the very same state, however many splits and merges took place |
| BuddySpec.AllocComplete | buddy/buddy.c:190-222 | a request fails if and only if it exceeds memory or no aligned region of the needed order is entirely unused |
| BuddySpec.AllocTakesLowest | buddy/buddy.c:200-215 | the block served is the lowest of the smallest sufficient order |
| BuddySpec.BlocksTile | buddy/buddy.c:83-146 | free and live blocks are aligned and tile memory without gap or overlap |
| BuddySpec.BlocksAreLists | buddy/buddy.c:83-146 | the tiles are the entries of the free lists and the live blocks, and nothing else |
| BuddySpec.RunGood | buddy/buddy.c:155-264 | after any sequence of requests free buddies are merged, blocks tile memory and all free lists are address-ordered |
| BuddySpec.RunsAgree | buddy/buddy.c:155-264 | two request sequences that leave the same blocks live leave identical free lists |
| BuddySpec.FreeAllRestores | buddy/buddy.c:155-174 | freeing all live blocks, in any order, after any run, leaves the free lists of `buddy_init` |
| BuddyState.SplitLists | buddy/buddy.c:83-103 | the list operations of a split yield the free lists of the split memory; they stay ordered because the lower list was empty |
| BuddyState.SplitRecorded | buddy/buddy.c:83-103 | the two new sizes make the page records right for the split memory |
| BuddyState.BuddiesMerge | buddy/buddy.c:118-146 | if the page in buddy position is found free with the same size, both blocks can be merged |
| BuddyState.MergeLists | buddy/buddy.c:118-146 | the buddy's entry is on the list of its order, and unlinking it there yields the free lists of the merged memory |
| BuddyState.MergeRecorded | buddy/buddy.c:118-146 | updating the size of the first page only is enough, although interior records stay stale |
| BuddyState.MergeTree | buddy/buddy.c:118-146 | one merge makes progress towards the fully coalesced memory |
| BuddyState.MergeDecision | buddy/buddy.c:118-146 | the test on two page records says to merge exactly when the buddy is entirely free; for the whole memory, exactly when the entry past the table is a look-alike |
| BuddyState.BuddyPastTable | buddy/buddy.c:240 | the buddy's page lies past the table for the whole-memory block and for no other |
| BuddyState.WholeMemoryLive | buddy/buddy.c:190-222 | a request for the highest order yields a block that is all of memory, whose buddy's page lies past the table |
| BuddyState.LookAlikeMerges | buddy/buddy.c:118-124 | for that block the test says to merge exactly if the entry past the table looks like a free block of the size of memory, though no such block exists |
| BuddyState.LookAlikeRecords | buddy/buddy.c:118-124 | for every size of memory there are page records with which it does |
| Buddy.WholeMemoryTrap | buddy/buddy.c:155-264 | an allocator in which one request from the start makes all of memory one live block while the entry past the table looks like a free block of that size |
| BuddyState.InsertLists | buddy/buddy.c:250-262 | inserting before the first greater address yields the free list of the memory with the block free |
| BuddyState.SettleTree | buddy/buddy.c:233-264 | when merging stops, memory is exactly as coalescing demands |
| Buddy.NeededOrder | buddy/buddy.c:193-196 | the smallest order whose blocks hold the requested size |
| Buddy.Allocator.constructor | buddy/buddy.c:155-174 | lists and records describe one free block of the whole memory |
| Buddy.Allocator.BuddySplit | buddy/buddy.c:83-103 | the first free block of an order becomes the two halves, in lists, records and tree |
| Buddy.Allocator.BuddyCombine | buddy/buddy.c:118-146 | merges until the buddy is not entirely free, without changing what full coalescing yields |
| Buddy.Allocator.Merge | buddy/buddy.c:118-146 | one merge in place: unlinking the buddy at its own position in its list |
| Buddy.Allocator.FindOrder | buddy/buddy.c:198-204 | finds the smallest sufficient order with a free block, or none |
| Buddy.Allocator.Carve | buddy/buddy.c:206-221 | splitting down and taking the block carries out `Alloc` |
| Buddy.Allocator.BuddyAlloc | buddy/buddy.c:190-222 | the address and the new state are those of `Alloc` at the needed order |
| Buddy.Allocator.FindPlace | buddy/buddy.c:250-262 | the loop stops at the first block with a greater address, at the head if there is none |
| Buddy.Allocator.InsertOrdered | buddy/buddy.c:250-262 | the merged block becomes free, in order |
| Buddy.Allocator.BuddyFree | buddy/buddy.c:233-264 | for the address of a live block, the new state is that of `Release` |
| Buddy.Allocator.AllocAndFree | buddy/buddy.c:190-264 | allocating and freeing at once restores every list, element by element |
| BoundedQueue.AddAppends | pthreads_pc/producer_consumer.c:110-141 | adding to a queue with room appends to its contents, across the wrap-around, and keeps both flags right |
| BoundedQueue.RemoveTakesOldest | pthreads_pc/producer_consumer.c:143-172 | removing takes the oldest item and keeps both flags right |
| BoundedQueue.Queue.constructor | pthreads_pc/producer_consumer.c:38-82 | a new queue is empty |
| BoundedQueue.Queue.QueueAdd | pthreads_pc/producer_consumer.c:110-141 | the addition in place |
| BoundedQueue.Queue.QueueRemove | pthreads_pc/producer_consumer.c:143-172 | the removal in place |
| Monitor.StepInv | pthreads_pc/producer_consumer.c:279-330 | every step of every thread keeps mutual exclusion, the contents of the queue, and that no thread waits while its condition is false unless a broadcast is under way; nothing is added to a full or removed from an empty queue |
| Monitor.SpuriousInv | pthreads_pc/producer_consumer.c:354-401 | so does a wakeup without a broadcast |
| Monitor.RunSafe | pthreads_pc/producer_consumer.c:294-314 | in every run the items removed are 0, 1, 2, ... in order and once each, produced equals consumed plus queue length, and the flags agree with the length |
| Monitor.NoneLeftWaiting | pthreads_pc/producer_consumer.c:354-401 | for numbers of threads that are `Staffed`, a state without an enabled step has all threads exited, although no exit path broadcasts |
| Monitor.StepDecreases | pthreads_pc/producer_consumer.c:279-330 | every step but a spurious wakeup decreases an explicit measure |
| Monitor.RunMeasure | pthreads_pc/producer_consumer.c:279-401 | steps taken plus measure never exceed a bound given by the sizes |
| Monitor.RunsEnd | pthreads_pc/producer_consumer.c:279-401 | every run without spurious wakeups is finite; for numbers of threads that are `Staffed`, all threads have exited at its end, and if there are producers and consumers, all work is then consumed in order |
| Monitor.HangsIffUnstaffed | pthreads_pc/producer_consumer.c:279-401 | some run hangs if and only if there is work but no producer for the consumers, or more work than fits the queue but no consumer |
| Table.SharedBy | pthreads_dp/dp_waiter.c:63-91 | a chopstick is reached by exactly two philosophers, who are neighbours |
| Philosophers.StepInv | pthreads_dp/dp_asymmetric.c:155-172 | a chopstick is locked by exactly the philosopher who has picked it up, in both locking orders |
| Philosophers.RunInv | pthreads_dp/dp_asymmetric.c:134-172 | so in every reachable state, for any N of at least 2 |
| Philosophers.NeighboursDontEat | pthreads_dp/dp_asymmetric.c:134-172 | neighbours never eat together |
| Philosophers.OneChopstick | pthreads_dp/dp_asymmetric.c:155-172 | in a reachable state a philosopher with one chopstick before eating has the left one, or the right one if the number is odd and the order by parity; after eating the left one |
| Philosophers.ParityNeverStuck | pthreads_dp/dp_asymmetric.c:155-157 | with parity order, a state without enabled step has everybody gone |
| Philosophers.ParityDeadlockFree | pthreads_dp/dp_asymmetric.c:134-172 | with parity order, every reachable state before Stop has an enabled step |
| Philosophers.OperationsBounded | pthreads_dp/dp_asymmetric.c:155-172 | in any run in which nobody completes a second acquisition, Stop set in the course of it or not, the number of lock and unlock operations is bounded by the state it starts from |
| Philosophers.WindowHasMeal | pthreads_dp/dp_asymmetric.c:155-172 | any run with at least 3N+1 lock and unlock operations, Stop set in the course of it or not, contains a completed second acquisition: no livelock |
| Philosophers.ParityAllLeave | pthreads_dp/dp_asymmetric.c:134-172 | after Stop at most 5N steps remain, and they end with everybody gone |
| Philosophers.NaiveStuckIff | pthreads_dp/dining_philosophers.c:155-156 | with left-then-right order, a state is stuck if and only if all have exited or all hold the left chopstick and wait for the right one |
| Philosophers.NaiveDeadlocks | pthreads_dp/dining_philosophers.c:155-171 | for every N of at least 2 such a state is reachable before Stop |
| Waiter.StepInv | pthreads_dp/dp_waiter.c:152-192 | every step keeps: an availability flag is 0 exactly while one of the two sharers eats, and whoever sleeps unsignalled has an eating or signalling neighbour |
| Waiter.RunInv | pthreads_dp/dp_waiter.c:152-192 | so in every run, spurious wakeups included |
| Waiter.NoLostWakeup | pthreads_dp/dp_waiter.c:152-192 | whenever the waiter mutex is free, an unsignalled sleeper has a neighbour who is eating with a shared chopstick, and neighbours never eat together |
| Waiter.NeverStuck | pthreads_dp/dp_waiter.c:152-192 | a state without enabled step has everybody gone |
| Waiter.StepDecreases | pthreads_dp/dp_waiter.c:152-192 | after Stop every step decreases a measure |
| Waiter.AllLeave | pthreads_dp/dp_waiter.c:152-192 | after Stop every run is finite and ends with everybody gone |
| Waiter.StepsBounded | pthreads_dp/dp_waiter.c:152-192 | in any run in which nobody takes chopsticks, Stop set in the course of it or not, the number of steps is bounded by the state it starts from |
| Waiter.WindowHasMeal | pthreads_dp/dp_waiter.c:152-192 | any run with at least 13N+1 steps without spurious wakeups, Stop set in the course of it or not, contains one at which somebody takes both chopsticks: no livelock |
| Waiter.DeadlockFree | pthreads_dp/dp_waiter.c:152-192 | before Stop every reachable state has an enabled step |
| Braces.BraceGobbler | ipc/bash-4.2/braces.c:482-595 | the loop computes the search `GobbleFrom`, whose behaviour on quotes, escapes, substitutions, braces and separators the lemmas of `BraceWords` give |
| Braces.Preamble | ipc/bash-4.2/braces.c:102-135 | finds the first open brace that has a matching close brace |
| Braces.CommaSearch | ipc/bash-4.2/braces.c:198-216 | finds an unescaped comma in the amble |
| Braces.ArrayConcat | ipc/bash-4.2/braces.c:602-638 | the nested loops compute the ordered cross product |
| Braces.BraceExpand | ipc/bash-4.2/braces.c:89-244 | terminates on every text, wherever substitutions end, with the expansion `Expand` |
| Braces.ExpandAmbleLoop | ipc/bash-4.2/braces.c:250-301 | terminates on every text, wherever substitutions end, with the concatenated expansions of the slots |
| BraceTerms.MkSeq | ipc/bash-4.2/braces.c:308-360 | with u the increment without its sign, or 1 if it is 0: writes \|end-start\| / u + 1 terms as text, start, start + u and so on, or start - u and so on if start is greater than end, and a null entry, all within the buffer allocated |
| BraceTerms.TermCount | ipc/bash-4.2/braces.c:308-360 | the first term past the end has number \|end-start\| / \|d\| + 1, where d is the signed increment |
| BraceTerms.PaddedValue | ipc/bash-4.2/braces.c:336-343 | a padded term has the width asked for, unless it is longer, reads back as the same number, and consists of digits behind at most a minus sign |
| BraceTerms.StrtolText | ipc/bash-4.2/braces.c:388-410 | blanks, a sign and digits are read as the number they stand for, up to the first character that is no digit |
| BraceTerms.StrtolItos | ipc/bash-4.2/braces.c:388-410 | reading a printed number gives it back, up to its end |
| BraceTerms.WidthOf | ipc/bash-4.2/braces.c:447-463 | the steps that work out the width pad exactly if an end has a leading zero, to the longer of the two ends |
| BraceTerms.ExpandSequence | ipc/bash-4.2/braces.c:362-471 | the terms of `ExpandSeqterm`: integers or letters between two ends of the same kind, or nothing |
| BraceWords.CrossIndex | ipc/bash-4.2/braces.c:602-638 | entry i*m+j of the product joins entry i of one factor and entry j of the other: the leftmost varies slowest |
| BraceWords.CrossAssociative | ipc/bash-4.2/braces.c:602-638 | the order in which preamble, amble and postamble are joined does not matter |
| BraceWords.PassWord | ipc/bash-4.2/braces.c:482-595 | the scanner passes over a printed word at any nesting depth and comes out at the same depth |
| BraceWords.PassQuoted | ipc/bash-4.2/braces.c:513-547 | from an opening quote the scan goes to just behind the quote that closes it, where an escaped one does not count except in single quotes; nothing in between is noticed |
| BraceWords.PassEscaped | ipc/bash-4.2/braces.c:505-520 | a backslash and any character behind it are passed over |
| BraceWords.PassParam | ipc/bash-4.2/braces.c:522-532 | `${` to its close brace is passed over, whatever braces, commas and quotes are inside |
| BraceWords.PassSubst | ipc/bash-4.2/braces.c:549-560 | `$(`, `<(` or `>(` is passed over up to where the substitution ends |
| BraceWords.CloseFound | ipc/bash-4.2/braces.c:482-595 | it stops at the close brace that belongs to the open brace |
| BraceWords.OpenFound | ipc/bash-4.2/braces.c:102-135 | the search for the preamble stops at the first alternation of a printed word |
| BraceWords.BlankBrace | ipc/bash-4.2/braces.c:562-576 | an open brace that is reached stops the search unless it has a blank or nothing before it and a blank, a close brace or nothing behind it |
| BraceWords.SkipSingle | ipc/bash-4.2/braces.c:102-135 | a pair of braces without a comma or sequence is passed over in the search for an open brace |
| BraceWords.CommaIff | ipc/bash-4.2/braces.c:199-215 | the search for a comma finds one if and only if some comma has an even number of backslashes before it |
| BraceWords.QuotedComma | ipc/bash-4.2/braces.c:198-215 | so a quoted comma is found as well: braces around quoted text with a comma, two dots and a character disappear |
| BraceWords.NoPair | ipc/bash-4.2/braces.c:89-135 | without an open and a close brace a text is not expanded |
| BraceWords.PassRange | ipc/bash-4.2/braces.c:571-585 | the dots of a sequence count as a separator outside inner braces |
| BraceWords.RangeRead | ipc/bash-4.2/braces.c:362-471 | a printed sequence of integers, with or without leading zeros, or of letters, with or without increment, is read back as the progression it denotes, padded to the longer end if an end has leading zeros |
| BraceWords.MixedEnds | ipc/bash-4.2/braces.c:362-471 | there is no sequence from a number to a letter or back |
| BraceWords.ExpandSlots | ipc/bash-4.2/braces.c:250-301 | the slots of an amble expand to the concatenation of what the branches denote |
| BraceWords.ExpandWord | ipc/bash-4.2/braces.c:89-301 | for every word of plain, quoted and escaped characters, parameter and other substitutions, brace pairs without a comma, alternations and sequences, the expansion of its printed form is the ordered cross product it denotes, where all but alternations and sequences denote themselves |
| BraceWords.ExpandPrinted | ipc/bash-4.2/braces.c:89-301 | so the loops, run on the printed word, return that product |
| OperatorLaws.BinaryMeets | ipc/bash-4.2/expr.c:584-838 | every binary operation computes what its operator means: `/` and `%` a quotient and a remainder smaller than the divisor with the sign of the dividend, the bitwise operators each bit, shifts the bits moved, `**` the repeated product, comparisons and logical operators 0 or 1; a zero divisor, a negative exponent or shift count is an error |
| OperatorLaws.MeetsOnce | ipc/bash-4.2/expr.c:584-838 | that leaves only one result |
| OperatorLaws.UnaryMeets | ipc/bash-4.2/expr.c:840-869 | so for the unary operators |
| Numerals.StrlongDecimal | ipc/bash-4.2/expr.c:1325-1395 | a decimal number is read as the positional value of its digits |
| Numerals.StrlongOctalHex | ipc/bash-4.2/expr.c:1338-1354 | so is an octal number behind 0 and a hexadecimal one behind 0x or 0X, letters in either case |
| Numerals.StrlongBase | ipc/bash-4.2/expr.c:1310-1395 | so is base#digits for every base from 2 to 64, letters in either case up to base 36 and capital letters after the others above |
| Numerals.StrlongBaseIff | ipc/bash-4.2/expr.c:1325-1395 | such a text is an error if and only if the base is not between 2 and 64 or something is no digit of it |
| Numerals.StrlongDigits | ipc/bash-4.2/expr.c:1325-1395 | reading a printed decimal number gives the number back |
| Expr.ReadTok | ipc/bash-4.2/expr.c:1122-1297 | reading a token restores `noeval`, moves forward, and changes no variable while `noeval` is non-zero, even through the values of variables and if it fails |
| Expr.SubExpr | ipc/bash-4.2/expr.c:394-430 | evaluating a variable's value under non-zero `noeval` changes no variable, failed or not |
| Expr.ExpComma | ipc/bash-4.2/expr.c:432-445 | a parse that returns leaves `noeval` as it was and has read something; whether it returns or fails, it changed no variable if `noeval` was non-zero |
| Expr.ExpAssign | ipc/bash-4.2/expr.c:447-537 | the same, for assignments, which are carried out only if `noeval` is zero |
| Expr.ExpCond | ipc/bash-4.2/expr.c:540-582 | the same, across the raising and lowering of `noeval` for the arms |
| Expr.ExpBin | ipc/bash-4.2/expr.c:585-817 | the same, for the ten left-associative levels |
| Expr.ExpPower | ipc/bash-4.2/expr.c:819-838 | the same, for powers |
| Expr.Exp1 | ipc/bash-4.2/expr.c:840-869 | the same, for unary operators |
| Expr.Exp0 | ipc/bash-4.2/expr.c:871-962 | the same, for operands, `++` and `--` and the lookahead behind a variable |
| ExprMachine.Evaluator.ReadTok | ipc/bash-4.2/expr.c:1122-1297 | in place, with tokens saved and restored around the lookahead: the token and globals of `Expr.ReadTok`, the context stack unchanged |
| ExprMachine.Evaluator.ReadNumber | ipc/bash-4.2/expr.c:1325-1395 | the loop of `strlong` computes the number |
| ExprMachine.Evaluator.RestoreTok | ipc/bash-4.2/expr.c:236-246 | restores all token globals and neither the variables nor the last assignment operator |
| ExprMachine.Evaluator.PushExp | ipc/bash-4.2/expr.c:250-270 | saves the globals on the stack |
| ExprMachine.Evaluator.PopExp | ipc/bash-4.2/expr.c:274-288 | restores them |
| ExprMachine.Evaluator.StrEval | ipc/bash-4.2/expr.c:990-1058 | evaluates the value of a variable, or 0 |
| ExprMachine.Evaluator.SubExpr | ipc/bash-4.2/expr.c:394-430 | a nested evaluation changes only the variables and the last assignment operator, and fails beyond 1024 levels |
| ExprMachine.Evaluator.ExpComma | ipc/bash-4.2/expr.c:432-445 | the loop computes `Expr.ExpComma` |
| ExprMachine.Evaluator.ExpAssign | ipc/bash-4.2/expr.c:447-537 | in place, as `Expr.ExpAssign` |
| ExprMachine.Evaluator.ExpCond | ipc/bash-4.2/expr.c:540-582 | in place, as `Expr.ExpCond` |
| ExprMachine.Evaluator.ExpBin | ipc/bash-4.2/expr.c:585-817 | the loops compute `Expr.ExpBin`, whose levels are the groups of `ExprGrammar` by `LevelOf` |
| ExprMachine.Evaluator.ExpPower | ipc/bash-4.2/expr.c:819-838 | the loop computes `Expr.ExpPower` |
| ExprMachine.Evaluator.Raise | ipc/bash-4.2/expr.c:831-835 | repeated multiplication computes the power; a negative exponent is an error |
| ExprMachine.Evaluator.Exp1 | ipc/bash-4.2/expr.c:840-869 | in place, as `Expr.Exp1` |
| ExprMachine.Evaluator.Exp0 | ipc/bash-4.2/expr.c:871-962 | in place, as `Expr.Exp0` |
| ExprMachine.Evaluator.EvalExp | ipc/bash-4.2/expr.c:355-392 | the value, the variables and the validity of `Eval`; after a failure the variables are those assigned up to it and the stack is empty again |
| ExprTrees.ReadFollow | ipc/bash-4.2/expr.c:1219-1296 | each operator is recognised although one- and two-character operators share prefixes |
| ExprTrees.ReadLit | ipc/bash-4.2/expr.c:1206-1217 | a number in any base is read to its end with its value, or is an error if it has none |
| ExprTrees.ReadVar | ipc/bash-4.2/expr.c:1148-1205 | a variable not about to be assigned to is read with its value, if it has one, and is an error that changes nothing otherwise |
| ExprTrees.ReadTarget | ipc/bash-4.2/expr.c:1181-1201 | a variable about to be assigned to is read although it may have no value |
| ExprTrees.VariableValue | ipc/bash-4.2/expr.c:990-1058 | at every depth, the nested evaluation of a variable that is unset, empty, or holds a numeral or the text of a tree without assignments gives that value, or fails exactly if there is none, and changes nothing, whatever `noeval` is |
| ExprTrees.PreReads | ipc/bash-4.2/expr.c:881-903 | `++` and `--` before a variable store and yield the new value, or only yield it while assignments are off |
| ExprTrees.PostReads | ipc/bash-4.2/expr.c:916-954 | behind a variable they store the new value and yield the old one |
| ExprTrees.SetReads | ipc/bash-4.2/expr.c:447-537 | an assignment evaluates its right side first, then stores it |
| ExprTrees.UpdateReads | ipc/bash-4.2/expr.c:447-537 | `op=` takes the value the variable had before the right side was evaluated |
| ExprTrees.RunHolds | ipc/bash-4.2/expr.c:447-537 | variables that hold numerals or their trees go on doing so, and nothing changes while assignments are off |
| ExprTrees.InertRuns | ipc/bash-4.2/expr.c:447-537 | a tree without assignments has the same value and no effect whether assignments are on or off |
| ExprTrees.Reads | ipc/bash-4.2/expr.c:394-962 | the parser of any level, on a tree printed for that level, ends up where it would with the tree's value in hand, the following token next and the variables as the tree leaves them |
| ExprTrees.SubExprPrinted | ipc/bash-4.2/expr.c:394-430 | the text of a tree, evaluated at any depth and with any `noeval`, yields the tree's value, or fails exactly if the tree has none, and leaves the variables as the tree does |
| ExprTrees.EvalPrinted | ipc/bash-4.2/expr.c:355-962 | for every tree of numbers, variables, `++`, `--`, unary and binary operators, conditionals, assignments and commas, evaluating its minimally parenthesised text reads all of it, yields the tree's value and leaves the variables as the tree does, where variables may themselves hold the text of trees without assignments; it fails exactly if some subterm, or the tree of some variable used, has a zero divisor, a negative exponent or a negative shift, or the nesting exceeds its limit, and the variables are then those assigned up to that point |
| ExprTrees.CircleFails | ipc/bash-4.2/expr.c:255-256 | variables that refer to each other in a circle have no value at any depth |
| ExprTrees.CircularText | ipc/bash-4.2/expr.c:250-430 | an expression without assignments that uses such a variable fails and changes nothing |
| ExprTrees.NestingLimit | ipc/bash-4.2/expr.c:255-256 | the first of a row of variables that hold each other's names has the number in the last one as its value if there are at most 1023 of them, and is an error otherwise |
| ExprTrees.EvalTree | ipc/bash-4.2/expr.c:355-392 | so does the evaluation in place |
| ExprGrammar.LevelOf | ipc/bash-4.2/expr.c:585-838 | the levels at which the parser handles binary operators are the groups of the documentation, `**` being the last |
| ExprGrammar.GroupedPrint | ipc/bash-4.2/expr.c:585-838 | the tree that the groups give to operands and operators is printed as these one after the other, without a parenthesis |
| ExprGrammar.EvalGrammar | ipc/bash-4.2/expr.c:25-56 | every text of the documented language, with any parentheses and any numbers, evaluates as the tree that the groups of operators give it: tighter groups first, from the left within a group, powers from the right |
| ExprGrammar.ThreeNumbers | ipc/bash-4.2/expr.c:585-838 | of two operators between three numbers the second comes first exactly if its group binds tighter or both are `**` |
| ExprGrammar.StrayParen | ipc/bash-4.2/expr.c:394-430 | a close parenthesis too many is an error |
| ExprGrammar.MissingParen | ipc/bash-4.2/expr.c:905-912 | so is one that is missing |
| ExprGrammar.NumberAssigned | ipc/bash-4.2/expr.c:462-463 | so is an assignment to a number |
| ExprGrammar.StepAssigned | ipc/bash-4.2/expr.c:880-903 | so is one to a variable with `++` or `--` before it, which has its new value by then |
| ExprGrammar.DoubledSign | ipc/bash-4.2/expr.c:1258-1271 | two equal signs are two operators if no name follows them, unless a variable comes before |
| ExprGrammar.BlankText | ipc/bash-4.2/expr.c:394-430 | a text of blanks is 0 |
| ExprEffects.SkippedOperandPure | ipc/bash-4.2/expr.c:584-638 | the right operand of a decided `&&` or `\|\|` is parsed without any effect, even if it fails, and its value does not matter |
| ExprEffects.SkipsIff | ipc/bash-4.2/expr.c:584-638 | the operand that is skipped is the right one of `&&` or `\|\|`, exactly if it cannot change the result |
| ExprEffects.BlanksSkipped | ipc/bash-4.2/expr.c:1122-1147 | blanks, tabs and newlines before a token do not matter |
| ExprEffects.LookaheadLeaves | ipc/bash-4.2/expr.c:1181-1201 | reading on past a variable fails exactly if the token behind cannot be read; otherwise, of the state restored, only the last assignment operator may differ when the variable's value is fetched |
| ExprEffects.ReadingAssigns | ipc/bash-4.2/expr.c:1148-1205 | reading a token, successfully or not, changes a variable if and only if the token is a variable, not about to be assigned to, whose value is an expression that assigns |
| ExprEffects.UntakenArmPureIff | ipc/bash-4.2/expr.c:550-573 | an arm that is not selected, whether it can be parsed or not, leaves the variables alone if and only if its first token is not such a variable |
| ExprEffects.HarmlessIff | ipc/bash-4.2/expr.c:550-573 | no arm that is not selected changes a variable, in any text, if and only if no variable's value, evaluated with `noeval` 0, changes one |
| ExprEffects.QuietEnvArmPure | ipc/bash-4.2/expr.c:550-573 | if no variable holds text with an assignment operator, `++` or `--`, no arm that is not selected changes a variable, in any text |
| ExprEffects.QuietTextPure | ipc/bash-4.2/expr.c:355-392 | a text without them then changes no variable at all, even if its evaluation fails |
| ExprEffects.ConditionalArms | ipc/bash-4.2/expr.c:540-582 | a conditional parses the selected arm as it would be parsed alone and has its value; the other is an unselected arm |
| ExprEffects.UntakenArmRuns | ipc/bash-4.2/expr.c:550-557 | for every variable `x`, evaluating `0?x:0` changes the variables exactly as evaluating the value of `x` does, and fails exactly if that fails |
| ExprEffects.UntakenArmAssigns | ipc/bash-4.2/expr.c:550-557 | with `x` holding `++y`, evaluating `0?x:0` increments `y` |
| SparseEntries.PresentInMap | ipc/bash-4.2/array.c:683-706 | a sorted sequence of entries holds an index exactly if the map does, with the same value |
| SparseEntries.InsertIsUpdate | ipc/bash-4.2/array.c:607-652 | insertion keeps the order and is a map update |
| SparseEntries.RemoveIsDelete | ipc/bash-4.2/array.c:658-678 | removal keeps the order and deletes from the map |
| SparseEntries.IndexAtLeastPosition | ipc/bash-4.2/array.c:203-256 | the n-th element has an index of at least n, so shifting makes no index negative |
| SparseEntries.ShiftKeepsOrder | ipc/bash-4.2/array.c:203-256 | shifting keeps the elements in order, with non-negative indices |
| SparseEntries.RShiftOrder | ipc/bash-4.2/array.c:263-297 | renumbering and pushing at index 0 keeps the elements in order if and only if the smallest index ends up positive; with non-negative indices it does |
| SparseEntries.ShiftUndoesPush | ipc/bash-4.2/array.c:203-297 | pushing a value and shifting once restores the array |
| SparseArray.ArrayStore.InvalidateLastref | ipc/bash-4.2/array.c:58-81 | forgets the remembered element of that array only |
| SparseArray.ArrayStore.Create | ipc/bash-4.2/array.c:83-97 | a new empty array, the others unchanged |
| SparseArray.ArrayStore.Flush | ipc/bash-4.2/array.c:99-116 | the array is empty, the others unchanged, nothing dangling remembered |
| SparseArray.ArrayStore.Copy | ipc/bash-4.2/array.c:129-147 | a new array of new elements with the same entries; the original and all others unchanged |
| SparseArray.ArrayStore.Shift | ipc/bash-4.2/array.c:203-256 | with AS_DISPOSE: drops the first n elements and renumbers the rest, with `max_index`, `num_elements` and the remembered element right afterwards |
| SparseArray.ArrayStore.ShiftOut | ipc/bash-4.2/array.c:203-256 | without AS_DISPOSE: the same, and the elements dropped come back as a null-terminated chain, in order, with their old indices and values and in no array any more |
| SparseArray.ArrayStore.RShift | ipc/bash-4.2/array.c:263-297 | renumbers and puts the new value at index 0, with counts and the remembered element right; the array is in order afterwards exactly in the case of `RShiftOrder`; returns the new number of elements |
| SparseArray.ArrayStore.CreateElement | ipc/bash-4.2/array.c:570-582 | a new element disturbs no array |
| SparseArray.ArrayStore.Insert | ipc/bash-4.2/array.c:607-652 | the new contents are those of the sorted insertion, in this array only; -1 exactly for a negative index into an empty array |
| SparseArray.ArrayStore.Remove | ipc/bash-4.2/array.c:658-678 | the new contents are those of the removal; the element returned is in no array and not remembered |
| SparseArray.ArrayStore.StartAt | ipc/bash-4.2/array.c:58-81 | starting at the remembered element skips only smaller indices |
| SparseArray.ArrayStore.Reference | ipc/bash-4.2/array.c:683-706 | returns what a lookup in the finite map returns, wherever the search starts; the remembered element stays an element of its array |

## Left out

Buddy allocator:

- Buddy.Allocator.BuddyFree: requires the address of a live block, which is what the client passes (`buddy/simulator.c:177-185`); for a whole-memory block it also requires that the entry past the table does not look like a free block of that size, the condition `BuddyState.LookAlikeMerges` proves exact, because otherwise the source unlinks a list entry in memory it does not own.
- Buddy.Allocator.BuddyAlloc: requires a size of at most 2^30; beyond that `1 << needed_block` overflows an `int`.
- `buddy_dump` and the command parser of the simulator: input and output.
- `list_for_each_entry` appears as its one use, the loop of `FindPlace`; the operations of `list.h` that the allocator does not use are left out.

Monitor and philosophers:

- The threads are step systems on values, one step per critical-section action, as their subject is the interleaving; sleeping, random numbers, printing and progress counters are left out.
- The two counters start at 0, which is what is meant; the source allocates them without setting them (`pthreads_pc/producer_consumer.c:452-462`).
- The main program's unlocking of all chopsticks after Stop, on behalf of their owners.
- Starvation of individual philosophers, which no version prevents.

Brace expansion:

- Quoting with `$'...'`, multibyte characters, and `CSH_BRACE_COMPAT`; `SHELL` is taken as defined.
- `extract_command_subst` is a parameter: an arbitrary function from a position to where the substitution ends.
- Integer overflow and truncation in sequences, and locales other than C.
- The result vectors are sequences of strings; their allocation and release are left out.

Arithmetic:

- Expr.ReadTok: a subscripted variable is an error in the model, because arrays of variables are not part of it.
- ExprMachine.Evaluator.StrEval: `set -u` and subscripts.
- Variables are a plain map from names to texts: dynamic ones such as `RANDOM` and `SECONDS`, readonly ones, those with the integer attribute, and `stupidly_hack_special_variables` (`ipc/bash-4.2/expr.c:313`) are outside the model.
- Machine integers: values are unbounded, and a negative shift count, undefined in C, counts as an error.
- Error messages.
- ExprTrees.EvalPrinted: variables of the tree must be unset, empty, or hold decimal numerals or the text of trees without assignments, and the only blanks printed are those that keep `+` and `-` apart from the same sign (`ExprGrammar.EvalGrammar` likewise; other blanks are the subject of `ExprEffects.BlanksSkipped`); a variable whose value is an expression with effects is the subject of `ExprEffects` instead.
- The ten functions from `explor` to `exp2` are one function with the level as a parameter.
- Memory management of token strings and saved contexts.

Sparse arrays:

- Null array pointers; nodes are supplied by the caller instead of `xmalloc`.
- `array_slice`, quoting, pattern substitution and conversion to and from words: walks over the list that only build strings.
