# Verified models of eleven RetroBSD programs

A Dafny 4.11 project that models the algorithmic core of eleven programs of RetroBSD and proves what they
are for: an instruction-cache emulator, a solitaire engine, a line editor's storage, an external sort, an
exact floating remainder, a regular-expression compiler and matcher, a factoring program, a multi-keyword
matcher, a merge join, a topological sort and a record converter. `dafny verify dfyconfig.toml` checks it.

| file | program | main results |
|---|---|---|
| `Mips.dfy`, `MipsLaws.dfy`, `ICache.dfy` | `src/libicache/icachec.c` | the emulator with its cache simulates one without, over every run; HI:LO, overflow, bit-field and unaligned-access laws of the instruction set |
| `CanfieldTable.dfy`, `CanfieldRules.dfy`, `Canfield.dfy` | `src/games/canfield.c` | whatever is typed, the 52 cards stay in eleven piles that obey the rules, and every counter and bet agrees with the piles |
| `EdTemp.dfy`, `Ed.dfy` | `src/cmd/ed.c` | the paged temporary file is a map from handles to lines; moving, deleting, appending and `g/.../d` edit the text as they should |
| `Quicksort.dfy`, `SortFiles.dfy`, `SortKeys.dfy`, `Sort.dfy` | `src/cmd/sort.c` | the quicksort with gotos, the runs and the merge passes give a sorted permutation of the input; numeric keys are ordered as their values |
| `Fmod.dfy` | `src/libm/fmod.c` | the remainder is exact for every finite dividend and every nonzero divisor |
| `Grep.dfy` | `src/cmd/grep.c` | compiling and matching agree with the language of the pattern |
| `Factor.dfy` | `src/games/factor.c` | the smallest prime factor, by stepping a mixed-radix number |
| `FgrepQueue.dfy`, `Fgrep.dfy`, `FgrepLaws.dfy` | `src/cmd/fgrep.c` | marked states are entered only where a keyword ends; failure links and marks are exactly those of the search, and terminate; the search ends well if and only if its circular queue has room; no line is missed if the first characters of the keywords are apart |
| `Join.dfy` | `src/cmd/join.c` | the rewinding merge is the nested-loop join |
| `Tsort.dfy` | `src/cmd/tsort.c` | every node once, ready ones first, and an edge is violated only into a node on a cycle of nodes not printed yet |
| `Dd.dfy` | `src/cmd/dd.c` | unblocking undoes blocking up to truncation and trailing spaces |
| `Words.dfy`, `Basics.dfy` | | arithmetic of machine words and two common definitions, shared by the others |

Files, terminals and random numbers are sequences; pointers into buffers are indices; a program that exits
with an error returns a value that says so. Loops with gotos keep their control state in a variable. Where
the source changes an object in place the model is a class, and its specification is a ghost field or a
predicate on sequences that every method keeps.

Things the proofs turned up:

* `ed`: `ichanged` is never set, so the branch of `getblock` that writes `ibuff` back is dead. `g/.../d` runs a
  shortcut, `gdelete`, that leaves the same buffer as the general loop but not always the same current line;
  `Ed.DotAgrees` says exactly when, and `Ed.DotDiffers` shows an input where it does not. `rdelete` copies
  the cell after the last line; there is none if and only if the last line goes and the table is full, as
  `Ed.LastLineOverruns` shows of a new buffer with 127 lines. What is read there does not matter.
* `canfield`: `bottom[]` is out of date for a tableau emptied onto a foundation. That is harmless, because it then
  names a card on a foundation. A tableau move to an empty tableau or onto itself is always refused; the second
  holds only because no card of the base rank is ever in a tableau. The assignment to `bottom[des]` in `tabtotab` is
  dead code.
* `grep`: a range the wrong way round is its first character; stars after the first one of a pattern, or after a
  bracket, are ordinary characters. A pattern that ends with the minus of a range is read past its end,
  and an item of two cells is stored past the end of the buffer when one cell is left; `Grep.CompileClass` and
  `Grep.Compile` say exactly when, `Grep.ReadsPast` and `Grep.StoresPast` are inputs.
* `fgrep`: a failure link is looked for through one failure only, then from the root, so a line can be missed:
  `FgrepLaws.Misses` is an input, and `FgrepLaws.SelectAll` has a condition under which none is. The circular queue
  of 400 cells does not only fill up: it leaves its array when it runs empty at the last cell, as for any
  keyword of 400 characters (`FgrepLaws.OneKeyword`). `Fgrep.Matcher.Cfail` has the exact condition of either.

## Model

| member | source | states |
|---|---|---|
| `ICache.Emulator.constructor` | src/libicache/icachec.c:383-389 | an empty cache satisfies the invariant and stands for the given machine |
| `ICache.Emulator.Fetch` | src/libicache/icachec.c:398-477 | on the sequential path and on hit and miss alike, the word returned is the program's word at the address; valid lines hold the program, no tag twice in a set |
| `ICache.Emulator.Lookup` | src/libicache/icachec.c:425-438 | finds the way that holds the tag, or shows that none does |
| `ICache.Emulator.Victim` | src/libicache/icachec.c:444-459 | an invalid way if there is one, else the round-robin victim |
| `ICache.Emulator.Refill` | src/libicache/icachec.c:461-475 | the line filled from the program keeps the cache valid; tags and words of all other lines stay |
| `ICache.Emulator.Retire` | src/libicache/icachec.c:1153-1171 | delay slots, nullified slots and system-call skips advance the machine as without a cache, and the sequential counter stays in step with the pc |
| `ICache.Emulator.Step` | src/libicache/icachec.c:644-1171 | one emulated instruction is one step of the cacheless machine, or the same stop |
| `ICache.Emulator.Emulate` | src/libicache/icachec.c:637-1171 | every run of the cached emulator is the run of the cacheless machine |
| `ICache.RunStep` | src/libicache/icachec.c:637-1171 | a run of i + 1 steps is a run of i steps and one more |
| `MipsLaws.MultiplyAccumulate` | src/libicache/icachec.c:1006-1058 | madd, maddu, msub, msubu change HI:LO by the exact product modulo 2^64 and nothing else |
| `MipsLaws.AddHiLoExact` | src/libicache/icachec.c:1006-1058 | adding in two halves with a carry is addition modulo 2^64 |
| `MipsLaws.SubHiLoExact` | src/libicache/icachec.c:1006-1058 | subtracting in two halves with a borrow is subtraction modulo 2^64 |
| `MipsLaws.OverflowTraps` | src/libicache/icachec.c:826-858 | add and sub trap exactly when the signed result is out of range, and then change nothing; else they store it and change nothing else |
| `MipsLaws.AddiTraps` | src/libicache/icachec.c:962-970 | addi traps exactly when the signed result is out of range, and then changes nothing; else it stores it and changes nothing else |
| `MipsLaws.InsertExact` | src/libicache/icachec.c:1080-1095 | ins replaces exactly the addressed bits |
| `MipsLaws.ExtractExact` | src/libicache/icachec.c:1080-1095 | ext gives exactly the addressed bits |
| `MipsLaws.InsThenExt` | src/libicache/icachec.c:1080-1153 | ext after ins gives back the field inserted, or 0 if a target is register 0, which the loop clears after each; memory stays |
| `MipsLaws.StoreUnaligned` | src/libicache/icachec.c:1119-1147 | swl at A+3 and swr at A store the word at any alignment, and no other byte changes |
| `MipsLaws.LoadUnaligned` | src/libicache/icachec.c:1119-1147 | lwl at A+3 and lwr at A load it |
| `MipsLaws.UnalignedRoundTrip` | src/libicache/icachec.c:1119-1147 | any word stored by the pair is loaded by the pair |
| `Canfield.Game.MoveCard` | src/games/canfield.c:1285-1410 | after any commands the game is in order: all invariants of the piles, counters and bets, at most 34 dollars of information, five dollars for each card up once the game is bought and none before |
| `Canfield.Game.Round` | src/games/canfield.c:1293-1408 | one command: a deal if the talon is empty, the command's own legal move or none, then base cards taken off |
| `Canfield.Game.Act` | src/games/canfield.c:1326-1404 | what each command does to the piles, from the rules of the game; the tableaus keep free of the base rank |
| `Canfield.Game.Choose` | src/games/canfield.c:1296-1325 | the first command that moves a card costs thirteen dollars, or ends the game if that is refused; all cards up ends it too |
| `Canfield.Game.FromHand` | src/games/canfield.c:1342-1369 | the game is bought once, for 26 dollars and with the winnings so far, and refusing ends it; then cards are dealt |
| `Canfield.Game.Transit` | src/games/canfield.c:556-565 | the relinking moves exactly the top card, and every card stays in one place |
| `Canfield.Game.UsedTalon` | src/games/canfield.c:570-588 | a card that comes to light is seen, and while cards are counted paid for, once |
| `Canfield.Game.FndBase` | src/games/canfield.c:607-645 | exactly the base cards on top of the pile begin new foundations, of which there are never more than four |
| `Canfield.Game.InitGame` | src/games/canfield.c:650-690 | the deal is in order, with eighteen cards seen for nothing |
| `Canfield.Game.ShowStat` | src/games/canfield.c:695-730 | the cards charged are exactly the visible ones of talon and hand not paid for, a dollar each |
| `Canfield.Game.MoveToTalon` | src/games/canfield.c:735-811 | up to three cards dealt, from the talon turned over if the hand is empty, and a fourth time in vain ends the game |
| `Canfield.Game.Refill` | src/games/canfield.c:755-763 | the talon turned over is the hand, in reverse, and the counters agree |
| `Canfield.Game.StartGame` | src/games/canfield.c:862-896 | every shuffle leads to a game in order |
| `Canfield.Game.Shuffle` | src/games/canfield.c:474-492 | whatever numbers are drawn, the deck has every card once |
| `Canfield.Game.TabOk` | src/games/canfield.c:981-997 | the test on the pointers, said of the piles |
| `Canfield.Game.Allowed` | src/games/canfield.c:981-997 | for stock and talon the test is the rule: one lower of the other colour, or an empty tableau from the stock, and from the talon once the stock is gone |
| `Canfield.RankLower` | src/games/canfield.c:952-964 | one rank lower, a king being below an ace |
| `Canfield.RankHigher` | src/games/canfield.c:1207-1219 | one rank higher, an ace being above a king |
| `Canfield.Game.ShowCards` | src/games/canfield.c:1077-1091 | talon and hand become visible and paid, and nothing is charged |
| `Canfield.Game.SimpleTableau` | src/games/canfield.c:1124-1151 | the card moves if and only if the rules allow it |
| `Canfield.Game.TabToTab` | src/games/canfield.c:1181-1202 | the whole tableau moves if and only if it fits on another that has cards; never onto itself |
| `Canfield.Game.MoveToFound` | src/games/canfield.c:1236-1280 | the card goes to a foundation that takes it, if and only if there is one |
| `CanfieldTable.EachOnce` | src/games/canfield.c:556-565 | every card is in exactly one place of one pile |
| `CanfieldTable.TransitLinked` | src/games/canfield.c:556-565 | four pointer assignments move the top card from one list to another |
| `CanfieldTable.JoinedLinked` | src/games/canfield.c:1189-1195 | linking the bottom card of one tableau to the top of another joins the lists |
| `CanfieldRules.NotOntoItself` | src/games/canfield.c:1181-1202 | the bottom card of a tableau is never one below its own top card |
| `CanfieldRules.RoomForBase` | src/games/canfield.c:607-645 | a base card outside the foundations means that fewer than four are begun |
| `CanfieldRules.InformedBound` | src/games/canfield.c:570-588 | information never costs more than 34 dollars |
| `EdTemp.TempFile.constructor` | src/cmd/ed.c:918-934 | an empty file holds no lines |
| `EdTemp.TempFile.GetBlock` | src/cmd/ed.c:872-906 | the buffer returned holds the addressed block of the file as it would read back, whichever of the two buffers or the disk it comes from; it fails exactly from block 255 on |
| `EdTemp.TempFile.PutLine` | src/cmd/ed.c:844-870 | a new handle for the line, no earlier line touched; it fails exactly when the line would not end within 255 blocks |
| `EdTemp.TempFile.GetLine` | src/cmd/ed.c:826-842 | the line put under the handle, marked or not |
| `EdTemp.AddressOf` | src/cmd/ed.c:872-884 | block and offset of a handle are its address in the file |
| `EdTemp.RoomRounds` | src/cmd/ed.c:867-869 | the write position moves past the line, to the next even handle |
| `Ed.Editor.Reverse` | src/cmd/ed.c:1186-1198 | the swapping loop reverses the range |
| `Ed.ThreeReversals` | src/cmd/ed.c:1162-1184 | reversing two neighbours and then both exchanges them |
| `Ed.Editor.Move` | src/cmd/ed.c:1143-1184 | the addressed lines are cut out and spliced in after the target, the current line is the last of them, and moving a block into itself is the only error |
| `Ed.Editor.RDelete` | src/cmd/ed.c:786-803 | exactly the addressed lines go; the loop stays inside the table unless the last line goes and the table is full |
| `Ed.LastLineOverruns` | src/cmd/ed.c:786-803 | 127 lines appended to a new buffer and the last one deleted: the loop reads the cell after the table |
| `Ed.Editor.GDelete` | src/cmd/ed.c:805-824 | exactly the marked lines go, in one pass |
| `Ed.Editor.GlobalDelete` | src/cmd/ed.c:977-985 | the general loop with `d` leaves the same lines, and ends; it stays inside the table unless that is full and only its last line is marked |
| `Ed.Editor.MarkLines` | src/cmd/ed.c:965-969 | exactly the selected lines in the range are marked |
| `Ed.Editor.Global` | src/cmd/ed.c:965-985 | either way the text left is the lines not selected, in order |
| `Ed.DotAgrees` | src/cmd/ed.c:805-824 | shortcut and loop leave the same current line if and only if not exactly one line is marked, or it makes no difference where it is |
| `Ed.DotDiffers` | src/cmd/ed.c:805-824 | three lines of which the last is marked, and the first current: the current lines differ |
| `Ed.Editor.Append` | src/cmd/ed.c:725-756 | the lines go in, in order, after the addressed line, until the temporary file is full |
| `Ed.Editor.Insert` | src/cmd/ed.c:747-753 | a handle put in after the current line |
| `Ed.Editor.Grow` | src/cmd/ed.c:735-746 | the table keeps its lines and has room for one more |
| `Ed.Editor.Print` | src/cmd/ed.c:826-842 | a line of the table reads back as the text it stands for |
| `Quicksort.Qusort` | src/cmd/sort.c:835-911 | for any total preorder a sorted permutation, under -u blanked but for the first of each class; calls nest at most log2(n) deep |
| `Quicksort.OnePerClass` | src/cmd/sort.c:893-895 | of every class exactly one line is not blanked |
| `Quicksort.Partition` | src/cmd/sort.c:846-910 | the cells are parted into smaller, equal and greater than the pivot |
| `Quicksort.AtHead` | src/cmd/sort.c:857-867 | the head of the goto loop settles a cell or finds it greater |
| `Quicksort.AtLabel` | src/cmd/sort.c:869-909 | the label inside it settles a cell, or a great one when none is left |
| `SortFiles.SortAll` | src/cmd/sort.c:278-300 | the output is the accepted lines of all files, in order, however many runs there were |
| `Sort.SortLines` | src/cmd/sort.c:278-300 | `sort` and `sort -r`: the accepted lines in dictionary order, or the reverse |
| `Sort.SortNumbers` | src/cmd/sort.c:278-300 | `sort -n` and `sort -nr`: the accepted lines in the order of the numbers they begin with, or the reverse |
| `SortFiles.Sort` | src/cmd/sort.c:302-373 | the input is cut into parts of which each gives a run: sorted and complete, or under -u strictly ascending, from the part, with a line for each class of it; there is one run if and only if the input fits |
| `SortFiles.SortUnique` | src/cmd/sort.c:302-373 | with -u every run is strictly ascending and from the input, and the runs have a line for each class of the input; one run, so one line of each class, if and only if the input fits |
| `SortFiles.Fill` | src/cmd/sort.c:315-353 | lines are taken in order, long ones skipped, within the space for them; the input ends if and only if what is left fits |
| `SortFiles.TakeLine` | src/cmd/sort.c:317-352 | a line is taken exactly if it fits the buffer; a missing newline is put in |
| `SortFiles.Merge` | src/cmd/sort.c:381-477 | the lines of at most seven sorted files, in order |
| `SortFiles.Settle` | src/cmd/sort.c:450-455 | the file just read goes down to its place |
| `SortFiles.Passes` | src/cmd/sort.c:287-297 | the passes end, and merge all the runs |
| `SortKeys.Cmpa` | src/cmd/sort.c:680-694 | the pointer walk computes `CmpA` |
| `SortKeys.CmpaLexical` | src/cmd/sort.c:680-694 | whole lines are compared in dictionary order, and are equal only if they are the same |
| `SortKeys.CmpaPreorder` | src/cmd/sort.c:680-694 | that is a total preorder, also under -r |
| `SortKeys.CompareNumbers` | src/cmd/sort.c:605-656 | keys are ordered as the numbers they stand for: signs, leading zeros, fractions, -0 and 0 alike |
| `SortKeys.CompareInts` | src/cmd/sort.c:629-633 | the last difference from the right decides |
| `SortKeys.CompareFracs` | src/cmd/sort.c:645-655 | the first difference from the left decides |
| `SortKeys.CompareLines` | src/cmd/sort.c:578-678 | `cmp` with the whole line as its numeric key |
| `SortKeys.CmpPreorder` | src/cmd/sort.c:578-678 | numeric order is a total preorder, alone and with whole lines behind it |
| `Fmod.FMod` | src/libm/fmod.c:7-111 | an exact remainder with the sign of x, in units of 2^-1074, subnormals included; invalid exactly for infinite or NaN x, NaN or zero y |
| `Fmod.Exceptional` | src/libm/fmod.c:19-22 | the test on the words finds exactly those operands |
| `Fmod.Ilogb` | src/libm/fmod.c:29-45 | the exponent of the leading bit, also of a subnormal |
| `Fmod.Significand` | src/libm/fmod.c:47-71 | a 53-bit significand, aligned without loss |
| `Fmod.FixedPoint` | src/libm/fmod.c:73-85 | shift and subtract computes the remainder of the aligned significands |
| `Fmod.Normalize` | src/libm/fmod.c:90-93 | the value is kept |
| `Fmod.Pack` | src/libm/fmod.c:94-109 | the double returned has the value, and the right shift loses no bits |
| `Fmod.UnitsMono` | src/libm/fmod.c:23-27 | the order of the words is the order of the magnitudes |
| `Grep.Select` | src/cmd/grep.c:286-349 | a line is selected if and only if some allowed place begins a prefix in the language of the pattern |
| `Grep.Compile` | src/cmd/grep.c:154-284 | the code of the items the pattern stands for, which fits in its 256 cells; an error exactly if it is malformed or too long; a cell is stored past the buffer if and only if an item of two cells comes when one is left, and then it is an error |
| `Grep.OverrunAt` | src/cmd/grep.c:178-281 | the first item that does not fit decides whether a cell is stored past the buffer |
| `Grep.StoresPast` | src/cmd/grep.c:178-281 | 255 dots and an `a` store a cell past the buffer |
| `Grep.DotsOverrun` | src/cmd/grep.c:178-281 | dots and an `a` do so for 255 dots, and for no other number of them |
| `Grep.CompileClass` | src/cmd/grep.c:208-235 | the bits of exactly the characters in the class; the source reads past the pattern if and only if that ends with the minus of a range |
| `Grep.OpenRangeEnd` | src/cmd/grep.c:218-227 | a pattern read past its end ends in a minus, and has no closed class there |
| `Grep.ReadsPast` | src/cmd/grep.c:218-227 | the pattern `[a-` is read past its end |
| `Grep.Advance` | src/cmd/grep.c:351-459 | true if and only if some prefix of the line from there is in the language |
| `Grep.TryEach` | src/cmd/grep.c:439-459 | the loops after a star, and the shortcut when a character follows, miss no match |
| `Grep.Execute` | src/cmd/grep.c:318-340 | the scan, and the fast one for a first character, miss no match |
| `Grep.MatchStar` | src/cmd/grep.c:418-459 | a starred atom matches if it does so with some number of characters |
| `Factor.SmallestFactor` | src/games/factor.c:17-66 | the smallest prime factor of every N > 1 |
| `Factor.Represent` | src/games/factor.c:27-36 | the digits denote N in bases 2, 3, 4 and so on |
| `Factor.Rebase` | src/games/factor.c:40-58 | one step up in the bases, with borrows and in the range of an int: still N, and the top digit never negative |
| `Factor.StepDigit` | src/games/factor.c:44-53 | one digit with its borrows keeps the value; at most i + 1 borrows, and every number on the way is an int |
| `Factor.BorrowCount` | src/games/factor.c:50-53 | the borrow loop for digit i runs at most i + 1 times |
| `Factor.PrintFactors` | src/games/factor.c:71-83 | primes, in order, whose product is n |
| `Fgrep.Matcher.Cgotofn` | src/cmd/fgrep.c:265-326 | states begin lines of the list, one at most for each character; marked states are keywords, and every keyword that ends in a newline is marked; a full table is the only failure, and a list of less than half as many characters as there are nodes fits |
| `Fgrep.Matcher.Find` | src/cmd/fgrep.c:294-308 | the node of the state that has the character, or the one to enter it at when none has it; a full table is the only failure |
| `Fgrep.Matcher.Enter` | src/cmd/fgrep.c:310-325 | the rest of the word in new states, the last one marked and no other; a full table is the only failure |
| `Fgrep.Matcher.Cfail` | src/cmd/fgrep.c:332-384 | the search ends well if and only if the queue has room for the states in their order, and leaves its array if and only if it runs empty at the last cell before; then every state has exactly the failure link found through that of the node that leads to it, by one failure and then from the root; links name proper suffixes; a node is marked if and only if it was before or the state it fails to is |
| `Fgrep.Matcher.Expand` | src/cmd/fgrep.c:348-383 | the children of the first state in the queue get their links and marks and wait, each once, as long as there is room |
| `Fgrep.Matcher.VisitNode` | src/cmd/fgrep.c:354-381 | one node: the state it leads to is queued, or the queue is full or leaves its array, exactly as the order of the search says |
| `Fgrep.Matcher.Roots` | src/cmd/fgrep.c:339-347 | the states one character from the root are queued; 399 of them are too many |
| `FgrepQueue.Push` | src/cmd/fgrep.c:356-363 | the state joins the queue; full with 399 in it, outside the array when empty at the last cell, and never else |
| `FgrepQueue.Pop` | src/cmd/fgrep.c:350-353 | the first state of the queue, and the rest of it in the cells |
| `Fgrep.OrderOnce` | src/cmd/fgrep.c:349-383 | the order of the search has each state once, after the state that leads to it |
| `Fgrep.FewStates` | src/cmd/fgrep.c:336-363 | there is room for up to 398 states, whatever their order |
| `Fgrep.SearchEnd` | src/cmd/fgrep.c:348-383 | when the queue is empty no state was missed |
| `Fgrep.Undone` | src/cmd/fgrep.c:348-383 | breadth first: a node not looked at is no shorter than the state being looked at |
| `Fgrep.InheritNext` | src/cmd/fgrep.c:354-380 | a mark that is passed on is final, because the state failed to was settled before |
| `Fgrep.Matcher.FindFail` | src/cmd/fgrep.c:364-379 | the node in the failure state, else in the root |
| `Fgrep.Matcher.GiveFail` | src/cmd/fgrep.c:354-380 | the state after s gets the link found, or none, and the mark of the state failed to; no other state changes |
| `Fgrep.Matcher.SetFail` | src/cmd/fgrep.c:370-373 | all nodes of the state and no others get the link, and those and no others are newly marked, if the state failed to is |
| `Fgrep.Matcher.Step` | src/cmd/fgrep.c:176-199 | failure chains end, and the state is a suffix of what was read of the line |
| `Fgrep.Select` | src/cmd/fgrep.c:109-246 | the search is made if and only if the nodes and the queue are enough, as for every list of less than 399 characters, else the result names the one that is not; the lines reported are exactly those that enter a marked state of the automaton of the list; each has a keyword of the list, and a line that begins with a nonempty keyword that has its newline is among them |
| `Fgrep.PathRun` | src/cmd/fgrep.c:176-199 | reading the string of a state leads to the state, without failing |
| `Fgrep.AllShown` | src/cmd/fgrep.c:167-246 | a line that begins with a nonempty keyword that has its newline is reported |
| `FgrepLaws.OneKeyword` | src/cmd/fgrep.c:336-363 | one keyword: the queue is enough if and only if it has less than 400 characters, and a longer one leaves the array |
| `FgrepLaws.ChainRoom` | src/cmd/fgrep.c:336-363 | the same of a trie without branches |
| `FgrepLaws.LinksByString` | src/cmd/fgrep.c:364-379 | the failure links are a function of strings: the link of what comes before, one character longer if that is a state, else the character, else none |
| `FgrepLaws.SelectAll` | src/cmd/fgrep.c:109-246 | if no first character of a line of the list is found later in a line, every line with a nonempty keyword that has its newline is reported |
| `FgrepLaws.PathFrom` | src/cmd/fgrep.c:176-199 | then reading the string of a state leads to the state, wherever it begins in the line |
| `FgrepLaws.Misses` | src/cmd/fgrep.c:374-379 | with the keywords `cabxq`, `abz`, `bx` the line `cabx` has a keyword and is not reported |
| `FgrepLaws.SameState` | src/cmd/fgrep.c:294-306 | a state is determined by its string |
| `Fgrep.Matcher.Execute` | src/cmd/fgrep.c:167-246 | a line is reported if and only if it enters a marked state, and there a keyword ends |
| `Join.Joiner.Merge` | src/cmd/join.c:105-141 | the pairs of the nested-loop join, in its order, and with -a every unpaired line once |
| `Join.Joiner.Equal` | src/cmd/join.c:117-140 | a group of equal keys in both files, joined by rewinding |
| `Join.Joiner.FirstRow` | src/cmd/join.c:117-121 | the first line of the group against the other file |
| `Join.Joiner.OtherRows` | src/cmd/join.c:122-139 | the other lines of the group, each against all of it |
| `Join.Tables.NestedJoinPairs` | src/cmd/join.c:105-141 | the nested-loop join has exactly the pairs with equal keys |
| `Tsort.Sorter.Print` | src/cmd/tsort.c:71-86 | every node once; each is the first that is ready, or when none is, on a cycle of nodes not printed yet |
| `Tsort.ViolatedIntoCycle` | src/cmd/tsort.c:71-86 | an edge is violated only into a node on a cycle of nodes not printed yet, and only when no node is ready |
| `Tsort.AcyclicIsTopological` | src/cmd/tsort.c:71-86 | without a cycle the order is topological |
| `Tsort.Sorter.ReadGraph` | src/cmd/tsort.c:56-70 | the names and the different pairs; odd data is the only error |
| `Tsort.Sorter.NIndex` | src/cmd/tsort.c:115-136 | the node of the name, a new one if need be |
| `Tsort.Sorter.Present` | src/cmd/tsort.c:91-99 | is the edge there |
| `Tsort.Sorter.AnyPred` | src/cmd/tsort.c:103-111 | is a predecessor live |
| `Tsort.Sorter.Sweep` | src/cmd/tsort.c:72-82 | a live node without live predecessors, or none is ready |
| `Tsort.Sorter.FindLoop` | src/cmd/tsort.c:166-181 | when none is ready a node on a cycle of live nodes, so "program error" cannot happen |
| `Tsort.Sorter.Mark` | src/cmd/tsort.c:188-207 | the search ends at a node on a cycle of live nodes, or has found only dead nodes |
| `Dd.RoundTrip` | src/cmd/dd.c:276-388 | unblock after block: each line truncated to `cbs` and stripped of trailing spaces |
| `Dd.RoundTripIdentity` | src/cmd/dd.c:276-388 | lines that fit and do not end in a space come back as they were |
| `Dd.BlockThenUnblock` | src/cmd/dd.c:276-388 | one `dd` into another, for any block sizes: the lines cut and stripped, and the number of those cut |
| `Dd.BlockedLines` | src/cmd/dd.c:361-388 | blocking pads or truncates each line, and counts the overlong ones |
| `Dd.UnblockedRecords` | src/cmd/dd.c:276-301 | unblocking strips each record |
| `Dd.Converter.BlockAll` | src/cmd/dd.c:361-388 | the writes together are the blocked text, for every `obs`; `ntrunc` is the number of overlong lines |
| `Dd.Converter.UnblockAll` | src/cmd/dd.c:276-301 | the writes together are the unblocked text, for every `obs` |
| `Dd.Converter.Block` | src/cmd/dd.c:361-388 | one more character of the text |
| `Dd.Converter.Unblock` | src/cmd/dd.c:276-301 | one more character of a record, spaces held back until they are needed |
| `Dd.Converter.Null` | src/cmd/dd.c:238-247 | one more character of output, a full buffer flushed |
| `Dd.Converter.Flsh` | src/cmd/dd.c:152-167 | the buffer becomes one write, counted full or partial |

## Left out

- Full MIPS32 conformance: the instruction cases are modelled as the source has them (`sltiu` with a zero-extended immediate, `j` with its region from pc); statistics, inline assembly and loading of executables are not modelled, and a system call is any result with a non-negative skip.
- Exceptions on unaligned or unmapped memory other than the program text, and text not aligned to cache lines, which the linker script rules out.
- ICache.Emulator.Emulate: a run is as long as its inputs, since the emulator itself never ends.
- Canfield: screen drawing, the score file, thinking time, totals over several games, and interrupts; the answers to "Inspect game?" and "Buy game?" come with the command.
- ed: the regular expressions and the `s`, `t` and `j` commands, reading and writing files, shell escapes, signals, running out of memory for the line table, and I/O errors.
- Ed.Editor.Print: the limit of the line buffer is not modelled.
- sort: -u and -c inside `merge`, -m with a file that is also the output, key fields and the options of fields other than -n and -r, names of temporary files, I/O errors, and lines with zero characters.
- SortKeys.CmpaLexical: dictionary order is that of the characters, as in the source for 7-bit lines; with signed `char`s bytes of 128 and more come before the others there.
- SortFiles.Sort: takes it that memory has room for at least one line.
- SortFiles.Merge: its first loop, which reads on past blanked lines, has nothing to do without -u and is not modelled.
- Quicksort.Qusort: the array holds lines and not pointers to them, so blanking a line is a flag.
- fmod: floating-point exceptions and signals raised on the way; invalid operands give a value that says so.
- grep: back-references, `\<`, `\>`, -w, -i, 8-bit characters and the limit on the length of a line; a pattern with such an escape gives `Unmodelled`. The bracket registers are written and never read without back-references.
- Grep.CompileClass: a pattern that ends inside a range is an error in the model; what the source finds past its end is not modelled.
- Grep.Compile: the code is a sequence, and a cell past the end of the buffer is one more of it; before an escape outside the model the answer about such a cell is for what comes before the escape.
- factor: numbers above 2^31 - 1, and reading and printing numbers.
- fgrep: an exact condition for completeness, and completeness for a last keyword without newline; -x, -y, -v, printing, and input with zero characters.
- Fgrep.Matcher.Cfail: what the source does once `rear` has left the array is not modelled; from there on the queue never looks empty, and the next state is stored past the array.
- join: splitting lines into fields, output formats, lines without fields, and inputs that are not sorted on the key.
- tsort: the limits on the lengths of names.
- dd: conversion tables other than case mapping, the fast path without conversion, reading in blocks, seeking, swapping bytes, and I/O errors.
- libcurses, the rest of libm, libtcl and the other commands are not part of this model.
