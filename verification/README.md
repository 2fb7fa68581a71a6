# librave: what permuting prologues and epilogues preserves

librave rewrites the machine code of an executable in place. It sweeps the bytes of each function,
records the first run of register pushes as the prologue and every later run of pops that mirrors it
as an epilogue, and on each randomization shuffles the function's slot table, re-encodes the
prologue in that order and every epilogue in the mirrored order. The rewritten image is served page
by page, from wherever the program was loaded.

This project models that program in Dafny and proves that it does what it is for: whatever `rand()`
returns, however often the code is randomized, and at whatever page-aligned address it is loaded, the
code that is served means what the code in the file means. `Lifetime.Serve` says so of a whole life of a
handle, from the file over any randomizations and relocations to the memory that is seen.

## The parts

- `Words`, `Windows`: 64-bit wrap-around arithmetic, page rounding, address windows.
- `Orders`, `Shuffle`: slot tables, their mirror, the in-place Fisher-Yates shuffle.
- `Instrs`: instructions and the laws asked of the decoder and the encoder, which are parameters.
- `Scan`, `Analysis`, `Search`, `Layout`: the linear sweep, the runs it delivers, what is recorded,
  and where the recorded sets lie. `Search.ScanFunction` is the loop code, `Analysis.Analyze` what it
  computes, `Layout.AcceptedExactly` what that means.
- `Encode`, `Transform`: the rewriting loops over arrays and the objects that hold slot tables, with
  the outcome of each call, failures included, as a function.
- `Outcomes`: the same outcomes told as chains of single steps, the tables that a randomization leaves,
  and that it can leave any.
- `Patches`, `Image`, `Randomize`: the text after any run in closed form, as the original text with
  one patch for each recorded set.
- `Rescan`: a second scan of permuted text.
- `Machine`, `Calls`, `Meaning`: a machine with registers, rsp and memory; executions as trees of
  nested activations; preservation of meaning.
- `Drift`: the address drift of the scan as written, on a concrete function.
- `Missed`: the exits that the scan as written misses, for every function, and what leaving through
  such an exit does to the registers.
- `Rave`, `Service`: the handle, the two windows over one image, relocation, and served pages.
- `Lifetime`: loading, then any randomizations and relocations, in a row.
- `Rings`: the circular doubly linked lists, on the heap.

## Where the code falls short of its intent

- `src/transform.c:370` adds the length of each candidate set to an address that `next_set` has
  already advanced past it. The model keeps the line: `asWritten` says whether it is there, and every
  contract of the scan holds for both values. As written, a set is recorded too far by the total
  length of all earlier candidate runs. The recorded addresses are right if and only if no run of pops
  but the first one undoes the prologue (`Layout.AsWrittenExactly`). Otherwise the start of some exit is
  never rewritten with the prologue (`Missed.MissedExit`). If that exit is no longer than the drift
  before it, leaving through it restores the registers from every state if and only if the prologue
  is not permuted (`Missed.MissedExitWrong`).
  `Drift.DriftCorrupts` gives a function with two exits that is corrupted. The theorems about
  soundness ask for that condition (`Rave.Steady`) only when the line is there.
- A function that ends exactly where the text section ends is skipped, and success is reported: its
  end address is not inside the text window (`src/rave.c:64`). `Rave.ProcessedExactly` says which
  functions are admitted.
- `list_swap` (`src/list.h:194-204`) on entries of two different lists does not exchange them when the
  second entry is alone in its ring; it puts the first entry behind the second (`Rings.SwapAcross`).
- `list_cut_position` (`src/list.h:360-372`) leaves the destination as it was when the source list is
  empty; it is a well-formed list afterwards only if it was one before (`Rings.CutPosition`).
- `section_address` (`src/section.c:24-27`) returns an `int`, so a `.text` address at or above 2 GiB is
  changed (`Rave.SectionAddressFits`).
- A segment that reaches the top of the address space is never served (`Service.NothingServed`), and
  when the load address is not page-aligned part of the image cannot be served
  (`Service.WholeImageServed`).
- The loop header at `src/transform.c:484-486` reads one entry past the array after the last
  iteration. The model reads each entry inside the loop body.
- `reloc_offset` is not set before `rave_relocate` runs. The model starts it at an arbitrary value, and
  what a fault returns is stated in terms of it.

## Hypotheses

- The decoder consumes at least one byte and looks at no byte beyond those it consumes; the encoder
  writes a decoded instruction as its bytes (`Instrs.Lawful`). `Drift.StackIsaLawful` shows that real
  push and pop encodings obey this. Memory operands of push and pop are not modelled: the operand
  is a register.
- Meaning is preserved for executions in which, run on the original code, the work between prologue
  and epilogue neither reads nor writes save slots in use, does not read dead ones, and returns rsp to
  where it found it, and in which activations end through a recorded epilogue (`Calls.Obeys`). Nothing
  is asked of the permuted code, and nothing of which registers are pushed: they may repeat, and rsp
  may be among them.
- The ranges of the functions do not overlap (`Rave.Disjoint`).
- What is said of served pages by their addresses asks for a page-aligned load address, a segment that
  does not reach the top of the address space, and a text section that lies as far into the segment
  in memory as in the file (`Service.LoadedAt`, `Service.WindowsAlias`).

## Model

| member | source | states |
|---|---|---|
| `Shuffle.Shuffle` | src/random.c:14-22 | the loop leaves the array as the arrangement that its values of `rand()` choose |
| `Shuffle.ShuffledBySwaps` | src/random.c:17-21 | the shuffle is a chain of exchanges: at step i the entry at i with the one that `rand()` modulo the number left picks from there on |
| `Shuffle.SwapEntries` | src/random.c:5-12 | the two entries hold each other's values, and every other entry is as before |
| `Shuffle.StaysPerm` | src/random.c:14-22 | a shuffled slot table is a slot table, so repeated shuffles are too |
| `Shuffle.OneToOne` | src/random.c:14-22 | from pairwise distinct entries, different choices lead to different arrangements |
| `Shuffle.Onto` | src/random.c:14-22 | every arrangement of the entries is reached by some choices |
| `Shuffle.EachPermutationOnce` | src/random.c:14-22 | from any slot table, each slot table is reached by exactly one vector of choices |
| `Shuffle.EveryChoiceDrawn` | src/random.c:18-19 | every vector of choices is drawn by some values of `rand()` |
| `Orders.MirrorPerm` | src/transform.c:526-528 | the mirrored table of a slot table is a slot table |
| `Orders.MirrorTwice` | src/transform.c:526-528 | mirroring twice gives the table back |
| `Orders.PlaceMirror` | src/transform.c:477-481 | placing the reversed list by the mirrored table is reversing the placement, for every length and table |
| `Scan.NextSet` | src/transform.c:201-275 | one call delivers the next run with its addresses, consumes the instruction that ends it, and fails exactly when undecodable bytes come first |
| `Scan.SweepFlat` | src/transform.c:216-226 | bytes written from known instructions are swept as exactly those instructions |
| `Scan.SweptBytes` | src/transform.c:216-226 | the bytes swept are the bytes of the instructions met; the sweep ends at or behind the end, starts no instruction there, and breaks off exactly at bytes before it that do not decode |
| `Analysis.RunsAreMaximal` | src/transform.c:229-264 | the runs delivered by repeated calls are exactly the maximal non-empty runs, despite the consumed terminators |
| `Analysis.RunsInOrder` | src/transform.c:362-388 | the runs come in address order with an instruction between any two |
| `Search.IsEpilogue` | src/transform.c:277-307 | accepts exactly as many pops as there are pushes, of the same registers in the opposite order |
| `Machine.MirrorsExactly` | src/transform.c:277-307 | for distinct registers: as many pops give back every pushed register, whatever happened in between, if and only if they are the register reverse of the pushes |
| `Search.KeptStep` | src/transform.c:370 | the added line moves the kept address ahead by exactly the bytes of the run just handled |
| `Search.FindEpilogues` | src/transform.c:362-388 | the loop records the mirroring runs in order, with the exact drifted or undrifted addresses, and fails exactly on undecodable bytes |
| `Search.ScanFunction` | src/transform.c:328-404 | the whole scan accepts or rejects as `Analyze` says |
| `Layout.AcceptedExactly` | src/transform.c:328-404 | a function is accepted if and only if its bytes are a list of instructions in which some later maximal run of pops undoes the first run of at least two pushes, rbp (register 5) counting as neither |
| `Layout.RecordedExactly` | src/transform.c:328-388 | what is recorded of an accepted function: the first run of pushes and exactly the later runs of pops that undo it, each between its addresses, in address order; as written only if no run but the first undoes it |
| `Layout.RbpNotRecorded` | src/transform.c:157-195 | no recorded run holds a push or pop of rbp |
| `Layout.DriftBounds` | src/transform.c:370 | the drift before any run but the first is positive and at most the bytes up to the end of the previous run |
| `Layout.DriftsAway` | src/transform.c:370 | as written, a run is recorded at its address if and only if it is the first |
| `Layout.DriftExactly` | src/transform.c:370 | as written, the start of a run is recorded too far on by exactly the bytes of all earlier runs of pops, modulo 2^64 |
| `Layout.AsWrittenExactly` | src/transform.c:362-388 | as written, the epilogues of a function are recorded at their addresses if and only if no run of pops but the first one behind the prologue undoes the prologue |
| `Layout.ReadsPlaced` | src/transform.c:226-262 | the recorded sets are increasing, disjoint, inside the function, and hold the bytes of their instructions |
| `Drift.StackIsaLawful` | src/transform.c:217-218 | one- and two-byte push and pop encodings meet the laws asked of the decoder and encoder |
| `Drift.DriftCorrupts` | src/transform.c:370 | a concrete function with two exits that the scan as written accepts and that permuting then corrupts, its own return and the next function included, while reporting success |
| `Missed.MissedExit` | src/transform.c:370 | every function that the scan as written records wrongly has a run of pops that undoes the prologue and is recorded too far on: the bytes that it starts with, as many as the drift, are never written, by whatever table and whatever the outcome |
| `Missed.UnpermutedExit` | src/transform.c:524-539 | leaving through an exit that was not permuted with the prologue moves the saved registers by the table, for all pushes of distinct registers, every table and every state |
| `Missed.RightIffUnpermuted` | src/transform.c:524-539 | such an exit restores the registers from every state if and only if the table is the identity |
| `Missed.MissedExitWrong` | src/transform.c:370 | when the missed exit is no longer than the drift, after writing by any table, once or again, the prologue decodes to the pushes of that table and the exit to its original pops, and the two restore the registers from every state if and only if the table is the identity |
| `Encode.EncodeOrder` | src/transform.c:467-503 | writes the set in the given order with the exact outcome, error returns and undefined writes included |
| `Encode.EncodedExactly` | src/transform.c:483-502 | the bytes written are the codes of the first instructions one after the other; success, a code that ends too late, an instruction that does not encode and a write outside the buffer are each told apart exactly |
| `Encode.ExactRefill` | src/transform.c:483-502 | instructions of the set's total length refill it exactly: no error return, no prefix past the end, and the whole is one patch |
| `Transform.MirrorTable` | src/transform.c:526-528 | fills the second table with the mirror of the first |
| `Transform.Permute` | src/transform.c:505-542 | shuffles the table, then writes the prologue by it and every epilogue by its mirror |
| `Outcomes.WrittenExactly` | src/transform.c:512-541 | one set after the other, the prologue by the table and the epilogues by `n - 1 - order[n - 1 - i]`, up to the first failure |
| `Transform.Transform.AddFunction` | src/transform.c:311-439 | appends the function with the identity table exactly when it is accepted, and then its end did not wrap |
| `Transform.Transform.PermuteAll` | src/transform.c:546-572 | permutes every function with successive values of `rand()`; the exact outcome, and after a failure too exactly which tables are shuffled and how many values are drawn |
| `Outcomes.PermutedExactly` | src/transform.c:559-571 | the tables of the functions begun are shuffled, each with the next `n - 1` values of `rand()`, and the functions written by them in order; after a failure the later tables stay and no more values are drawn |
| `Patches.Overwrite` | src/transform.c:489-499 | writing the same places again forgets what was written before |
| `Patches.OrderFree` | src/transform.c:559-567 | writes that do not overlap may be made in any order |
| `Image.SetHolds` | src/transform.c:514-539 | every recorded set holds its own instructions rearranged |
| `Image.PermutedAt` | src/transform.c:477-481 | rearranged: instruction i of the prologue stands in slot `order[i]`, and in an epilogue, counted from the end, so does the instruction that is i from the end |
| `Image.RestHolds` | src/transform.c:514-539 | every byte outside the recorded sets is the original one |
| `Image.PermuteAgain` | src/transform.c:512-539 | permuting a permuted text gives the text of the new tables alone |
| `Image.IdentityText` | src/transform.c:349-351 | the identity tables give the original text |
| `Image.ListOrderFree` | src/transform.c:559-567 | the text does not depend on the order of the list of functions |
| `Randomize.RandomizeOnce` | src/transform.c:546-572 | a randomization of sound functions succeeds and leaves the text of the new tables |
| `Outcomes.RandomizedExactly` | src/transform.c:546-572 | after a randomization of sound functions every table is the old one shuffled with its own values of `rand()`, and as many values are drawn as all tables need |
| `Outcomes.AnyTablesReached` | src/transform.c:546-572 | from any tables, some values of `rand()` make one randomization leave the text of any given tables |
| `Randomize.EveryRun` | src/transform.c:546-572 | after any number of randomizations: no failure, every table a slot table, every set its own instructions rearranged, every other byte original |
| `Randomize.OwnBytes` | src/transform.c:559-567 | the bytes in a function's range depend on its own table only |
| `Rescan.FlatApply` | src/transform.c:201-275 | exchanging instructions for others of the same length and taking the bytes is taking the bytes and patching them |
| `Rescan.RescanStable` | src/transform.c:311-439 | scanning permuted text stays in step, finds every run between the same addresses, accepts the function again, and records the prologue and every epilogue at the same addresses in their new order |
| `Rescan.OthersStay` | src/transform.c:546-572 | an instruction in no recorded run keeps its place and its bytes, and decodes to itself, whatever the tables |
| `Rescan.RbpStays` | src/transform.c:157-195 | so does every push and pop of rbp |
| `Machine.AfterPushes` | src/transform.c:516-517 | what pushes leave in the registers, in the save slots and elsewhere, rsp and repeated registers included |
| `Machine.AfterPops` | src/transform.c:532-533 | the mirrored pops restore every saved register and rsp, and nothing else |
| `Calls.Matching` | src/transform.c:505-542 | an execution of nested activations in two programs that differ in the orders ends with equal registers, rsp and memory outside dead slots and slots in use |
| `Meaning.PlacedMirrors` | src/transform.c:524-528 | mirrored pops stay the register reverse of the pushes under a table and its mirror |
| `Meaning.DecodesPermuted` | src/transform.c:514-539 | the bytes of every recorded set decode to its instructions rearranged |
| `Meaning.PermutedAlike` | src/transform.c:514-539 | the programs that any two choices of tables decode to are balanced and save the same registers |
| `Meaning.RunsPreserveMeaning` | src/transform.c:505-572 | after any number of randomizations every execution that obeys the hypotheses ends with the registers, rsp and live memory of the original |
| `Windows.Window.View` | src/window.c:51-76 | the place of an address inside the window, and the bytes left from there |
| `Windows.InsideWrapped` | src/util.h:20-21 | a window that reaches the top of the address space contains no address |
| `Rave.SectionAddressFits` | src/section.c:24-27 | the address survives the `int` result if and only if it fits a signed 32-bit integer |
| `Rave.InsideText` | src/rave.c:60-69 | when both ends pass the check and the end did not wrap, the text window holds the whole range and a byte behind it |
| `Rave.Handle.MapCodePages` | src/rave.c:98-143 | the image is the file's bytes from the segment's offset on, as many as its size there, followed by zeros, with both windows over it; which segments are refused |
| `Rave.Handle.ProcessFunction` | src/rave.c:51-81 | the exact outcome for one function: skipped when an end is outside the text window, appended when its bytes are accepted, skipped otherwise |
| `Rave.ProcessedExactly` | src/rave.c:60-78 | a function is admitted if and only if it lies in the text section, ends before the section does, and its bytes are a permutable list of instructions; every other one is skipped with success |
| `Rave.ProcessedFails` | src/rave.c:60-78 | nothing else than code behind the image keeps a function from being skipped or admitted with success |
| `Rave.Handle.ForEachFunction` | src/rave.c:209-213 | the exact list of functions and return code, with new slot tables; with functions that do not overlap the handle is sound afterwards |
| `Rave.LoadedExactly` | src/rave.c:209-213 | loading succeeds and admits exactly the functions that qualify, each once and in order |
| `Rave.LoadedInOrder` | src/rave.c:209-213 | the functions are offered in order up to the first failure, and each adds what it comes to |
| `Rave.AcceptedSound` | src/transform.c:311-439 | an accepted function is sound where it was found; as written only if no run of pops but the first one undoes its prologue |
| `Rave.LoadedPlaced` | src/rave.c:51-81 | functions that do not overlap are sound once loaded, wherever loading stops |
| `Rave.Handle.Init` | src/rave.c:145-221 | the exact outcome of mapping and loading in a row: return code, new image, windows, functions and new tables; with functions that do not overlap the handle is sound |
| `Rave.Handle.Randomize` | src/rave.c:248-258 | the exact outcome of a randomization, failures included; a sound handle succeeds and stays sound |
| `Rave.Handle.Relocate` | src/rave.c:260-270 | sets the offset modulo 2^64 and keeps the handle sound |
| `Rave.Handle.HandleFault` | src/rave.c:272-298 | a page is returned if and only if its address moved by the offset, modulo 2^64, lies in the segment window with a whole page left, and it is the one there |
| `Service.ServedExactly` | src/rave.c:281-297 | for an aligned load address a fault is served if and only if its page lies in the loaded range modulo 2^64, by the page at that offset |
| `Service.NothingServed` | src/rave.c:283-285 | an image that reaches the top of the address space is never served |
| `Service.WholeImageServed` | src/rave.c:272-298 | every byte of the image can be served if and only if the load address is page-aligned |
| `Service.PagesTile` | src/rave.c:272-298 | two faults get the same page if they lie in one page, and pages without a common byte otherwise |
| `Service.WindowsAlias` | src/rave.c:128-137 | an address in both windows has one place if and only if the section lies as far into the segment in memory as in the file |
| `Service.ImageByte` | src/rave.c:121-125 | each byte of the image is the permuted one in a set, else the file's, else zero |
| `Service.PageByte` | src/rave.c:272-298 | the same for every byte of every page served from a sound handle, whatever the offset |
| `Service.ImageSeen` | src/rave.c:260-298 | the whole image is seen at the load address, byte for byte and in order |
| `Service.SitesByAddress` | src/rave.c:128-137 | every function lies as far into the image as its address lies into the segment |
| `Service.ServedByte` | src/rave.c:260-298 | with the segment loaded at any page-aligned address, the byte seen where address v of the segment has gone is the one that the rearranged set has at v if v lies in a recorded set, else the byte of the file, else zero |
| `Service.WritesInText` | src/transform.c:559-567 | every byte outside the text window is the mapped one |
| `Service.SoundMeansSame` | src/rave.c:248-258 | code executed from the current image of a sound handle ends as on the mapped image |
| `Service.ServedMeansSame` | src/rave.c:248-298 | code executed from the pages served at any page-aligned load address, read at the addresses of the recorded sets, ends as the code of the file does |
| `Lifetime.PerformAll` | src/rave.c:248-270 | any sequence of randomizations and relocations: text, tables and values drawn are those of as many randomizations, the offset is that of the last relocation, and a sound handle never fails |
| `Lifetime.Serve` | src/rave.c:145-298 | a handle created and loaded from a file, then any randomizations and relocations: the functions are those that qualify, nothing fails after loading, and at the page-aligned address last relocated to, every execution that obeys the hypotheses on the file ends the same on the memory seen |
| `Rings.AddBetween` | src/list.h:71-82 | a node put between the last and the first node of a ring extends the ring |
| `Rings.Del` | src/list.h:152-157 | the other nodes stay a ring and the deleted one is poisoned |
| `Rings.Replace` | src/list.h:166-173 | the new node takes the place of the old one, also when that is alone |
| `Rings.SwapInRing` | src/list.h:194-204 | entries of one ring change places, neighbours on either side included |
| `Rings.Swap` | src/list.h:194-204 | exchanging the entries at any two places leaves every other place as it is |
| `Rings.SwapAcross` | src/list.h:194-204 | entries of two rings change places unless the second is alone; then exactly what happens instead |
| `Rings.BulkMoveTail` | src/list.h:248-260 | the segment moves to the end of the list, also when it is there already or is the whole list |
| `Rings.RotateToFront` | src/list.h:314-323 | the ring is rotated to the chosen entry |
| `Rings.EmptyRing` | src/list.h:288-332 | the two tests on links decide emptiness and singularity of the list |
| `Rings.CutPosition` | src/list.h:334-372 | splits the list behind the entry; the destination is a list exactly if the source was not empty or it was one before; nothing changes for an entry that is not on a list of at most one |
| `Rings.CutBefore` | src/list.h:388-402 | splits the list before the entry, and moves all of it for the head |
| `Rings.SpliceInit` | src/list.h:404-456 | the entries go to the front of the other list and the list is left empty |
| `Rings.SpliceTailInit` | src/list.h:466-473 | the entries go to the end of the other list and the list is left empty |
| `Rings.CutAndRejoin` | src/list.h:360-456 | cutting anywhere and splicing back restores both lists |
| `Rings.CutBeforeAndRejoin` | src/list.h:388-456 | the same for cutting before an entry |
| `Rings.CloseList` | src/transform.c:101-106 | the deleting traversal visits every entry once in order, poisons each, and leaves an empty list |

## Left out

- ELF and DWARF reading: header fields and function ranges are inputs.
- Operands of push and pop other than 64-bit registers: the transformer reads a register there.
- Out-of-memory returns, null-handle checks, freeing of memory, logging.
- Control flow inside function bodies, jumps into recorded sets, the red zone and unwinding data: they
  are part of the hypotheses on the work between prologue and epilogue.
- Wrap-around of rsp and accesses that straddle words: the machine's memory is addressed by integers
  and holds words.
- Statistical quality of `rand()`: its values are arbitrary.
- The transformer's lists of functions and of epilogues are sequences in `Transform`; the linked lists
  behind them are modelled on their own in `Rings`. The entries that list traversals reach by
  `container_of` are the list nodes themselves.
- The poison values of a deleted node: both are null in the model.
- `window_relocate`, the getters of the handle, `list_move`, `list_rotate_left` and the unused
  `instr_set_encode`: they add only easy members.
- Bit masks in page rounding are remainders by the page size.
- Missed.MissedExitWrong: pushed registers are distinct and not rsp, and the function is as short as
  for `Missed.MissedExit`.
- Missed.MissedExit: functions are shorter than half the address space, so that no drifted address
  wraps back into the function.
- Rave.Handle.ProcessFunction: reading code bytes through a text window that starts behind the image
  is undefined in C and returned as `Undefined`.
