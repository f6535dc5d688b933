# csim: the LRU set lists, the trace-line check and the option check

`csim.c` is an early draft of a cache simulator. It configures the cache from
the command line, reads a memory trace line by line, and keeps one doubly
linked LRU list per cache set. Classifying hits, misses and evictions is not
yet written in this file. The model covers the three pieces the file does
contain.

- **LruList** (`lru_list.dfy`) models the per-set lists.
  - Each list is a `DLL` object with a head and a tail sentinel `Node` and a
    separately allocated `Counter`, the heap `int` that `capacity` points to.
  - The C global `cache` becomes the parameter `cache: array<DLL>` of each
    method.
  - Ghost state gives each list its abstract content `elems` (least recently
    used first) and its footprint `Nodes`.
  - `Linked()` is the shape invariant: the chain `head, elems..., tail` is
    made of distinct nodes and consecutive nodes point at each other.
    `Valid()` adds that the counter equals `|elems|`.
  - `addLast` and `deleteNode` dereference `cache->`, which is `cache[0]`.
    The model keeps this. `AddLast` always grows set 0. `DeleteNode` unlinks
    the node from whichever set `k` holds it (a proof-only parameter), but
    always decrements set 0's counter. So the counter stays equal to the list
    length only while nodes are deleted from set 0, and `DeleteNode` promises
    `Valid()` only for `k == 0`.
- **TraceLine** (`trace_line.dfy`) models the split and check of one trace
  line, as a pure function.
  - `strtoul` follows section 7.22.1.4 of ISO/IEC 9899:2011, with a 64-bit
    `unsigned long` and bases 2 to 36. It covers leading white space, an
    optional sign (a minus negates in unsigned arithmetic), the `0x` prefix
    in base 16, saturation at `ULONG_MAX`, and the "no digits: value 0, end
    pointer unchanged" rule.
  - The line is the characters before its terminating NUL. Any position at
    or past its end reads as NUL.
- **Arguments** (`arguments.dfy`) models the check in `main` on the option
  globals, whose defaults come from csim.c:30-35.
  - `RejectedAsWritten` evaluates `setBit + blockBit` as 32-bit
    two's-complement `int` addition. `Rejected` uses the mathematical sum;
    see Findings.

## Model

| member | source | states |
|---|---|---|
| LruList.Node.constructor | csim.c:11-15 | a new node has the given tag and no neighbours |
| LruList.Counter.constructor | csim.c:42 | `calloc` yields a counter holding 0 |
| LruList.DLL.Valid | csim.c:17-21 | the list invariant (head sentinel, elements in LRU order and tail sentinel are distinct nodes linked to their neighbours by `next` and `prev`, counter equal to the number of elements) gives two distinct sentinels in the list's nodes, a head whose `next` is the first element and a tail whose `prev` is the last (each other when the list is empty), and the counter equal to the length |
| LruList.DLL.constructor | csim.c:40-44 | one set's setup gives an empty list: the head's `next` is the tail, the tail's `prev` is the head, the counter is 0, and the sentinels and counter are freshly allocated |
| LruList.DLL.LinkLast | csim.c:50-53 | `n` becomes the last element; the old elements keep their order; `n.prev` is the former last chain node and `n.next` is the tail; the list stays linked |
| LruList.DistinctRemove | csim.c:58-59 | taking one node out of a chain of distinct nodes removes exactly that node and leaves the rest distinct |
| LruList.InitializeCache | csim.c:38-47 | every set below `setNum` is an empty, valid list built from fresh objects; no two sets share a list, a node or a counter; the other slots are untouched |
| LruList.Unlink | csim.c:58-59 | removes exactly `n` from its position `p`; every other element keeps its order; `n`'s former neighbours now point at each other; `n`'s own `prev`/`next` are not changed; the list stays linked |
| LruList.AddLast | csim.c:49-55 | set 0 gains `n` just before its tail sentinel, with the order of its old elements unchanged; set 0's counter rises by exactly 1; so the counter keeps equal to the list length; every other set's list and counter are unchanged; all sets stay linked and separate |
| LruList.DeleteNode | csim.c:57-61 | exactly `n` leaves the set that held it, at its position, with the other elements in order; its neighbours become adjacent; `n`'s links are untouched; set 0's counter falls by exactly 1; the other sets' lists and the other counters are unchanged; set 0 stays valid when `n` was in set 0 |
| LruList.AddThenDelete | csim.c:49-61 | `addLast(n)` then `deleteNode(n)` restores every set's elements, footprint and counter, and every field of every node set 0 had before |
| TraceLine.DigitValue | csim.c:136-137 | a character's digit value is at most 36, and below 10 exactly for `0`-`9` |
| TraceLine.DigitsEnd | csim.c:136-137 | the end of the maximal digit run: every character before it is a digit and the one at it is not |
| TraceLine.SkipSpace | csim.c:136-137 | the first non-space position: every character skipped is white space |
| TraceLine.StrToUL | csim.c:136-137 | `strtoul`'s value fits in an `unsigned long`; its end pointer is either the start (nothing converted) or within the string past the start |
| TraceLine.DigitsEndIs | csim.c:136-137 | any maximal digit run from a position ends where `DigitsEnd` says |
| TraceLine.StrToULDigitRun | csim.c:136-137 | a bare digit run converts to its saturated value, with the end pointer just after it |
| TraceLine.StrToULNoDigits | csim.c:136-137 | with no digit or sign after the white space at the start, the value is 0 and the end pointer is the start itself |
| TraceLine.ParseLine | csim.c:135-139 | the letter is character 0, and address and size fit in an `unsigned long` |
| TraceLine.ParseLineRuns | csim.c:135-139 | for a hex run at index 2 ending at `left` and a decimal run from `left + 1`, the address and size are the runs' values; the line is flagged exactly when the letter is neither `S` nor `L` or `line[left]` is not a comma |
| TraceLine.ParseLineNoAddress | csim.c:135-139 | with no address digits after the white space at index 2, the address is 0, the size is read from index 3, and the flag depends on index 2 being a comma |
| TraceLine.SpaceBeforeAddressFlagged | csim.c:135-139 | `"L  ,5"` parses as load, address 0, size 0, and is flagged, since `left` stays on the space |
| TraceLine.ParseLineNoSize | csim.c:135-139 | for a hex run at index 2 ending at `left` and a size field with no digits, the address is the run's value, the size is 0, and the line is flagged exactly when the letter is neither `S` nor `L` or `line[left]` is not a comma |
| TraceLine.EmptySizeAccepted | csim.c:135-139 | `"L 10,\n"` parses as load, address 16, size 0, not flagged |
| TraceLine.EmptyAddressAccepted | csim.c:135-139 | `"L ,5"` parses as load, address 0, size 5, not flagged |
| TraceLine.NegativeAddressAccepted | csim.c:135-139 | `"L -1,4"` parses as load, address `ULONG_MAX`, size 4, not flagged |
| TraceLine.DigitChar | csim.c:136-137 | the printed digit for a digit value reads back as that value |
| TraceLine.Numeral | csim.c:136-137 | a printed numeral is non-empty and made only of digits of its base |
| TraceLine.NumeralRoundTrip | csim.c:136-137 | reading back a printed numeral gives the number |
| TraceLine.ParseWellFormed | csim.c:135-139 | `op ' ' hex ',' dec rest` with `op` in {L,S} parses to `op` and the saturated values of the two numerals, not flagged |
| TraceLine.ParseFormatLine | csim.c:135-139 | round trip: a formatted load or store line with 64-bit address and size, plus a tail that does not continue the size, parses back to the same letter, address and size and is not flagged |
| Arguments.Wrap32 | csim.c:65 | the 32-bit `int` result is congruent to the mathematical value modulo 2^32 |
| Arguments.AcceptedAsWritten | csim.c:65 | the check as the machine evaluates it accepts exactly what the check as meant accepts, plus every configuration whose other options are in order but whose `setBit + blockBit` is at least 2^31 |
| Arguments.CorrectedDropsOnlyOverflow | csim.c:65 | the corrected check accepts exactly the configurations the check as written accepts with a sum that fits in an `int`, and each leaves at least two bits of a 64-bit address for the tag |
| Arguments.MissingOptionRejected | csim.c:30-35 | with `-s`, `-b`, `-E` or `-t` left at its default, the configuration is rejected, both as written and as meant |
| Arguments.AsWrittenAgreesWithoutOverflow | csim.c:65 | while the sum fits in an `int`, the check as written and the check as meant agree |
| Arguments.OverflowAccepted | csim.c:65 | `-s 2147483647 -b 1 -E 1 -t trace` passes the check as written, but the check as meant rejects it |

## Left out

- `getArguments` (csim.c:79-109) is not modelled: `getopt`, `atoi` and `strcpy` are library calls. The model starts from the option values it leaves in the globals. `-h` only prints and does not set `quit`.
- `printMessage` and every `printf` (csim.c:66-73, csim.c:110-120, csim.c:138, csim.c:140) are output only.
- `fopen`/`fgets` in `processTraceFile` (csim.c:123-134) are I/O. This includes splitting lines longer than `LINELENGTH`. One line's characters are the input of `ParseLine`.
- TraceLine.ParseLine requires at least two characters, because `lineBuffer + 2` on a shorter line points past the string.
- The character at `left + 1` can lie past the terminator when the address runs to the end of the line. C then reads the rest of the buffer; the model reads NUL there.
- `strtoul` base 0, locales other than "C", and `errno` are not modelled; the program uses bases 16 and 10 only.
- A failing `malloc`/`calloc` is not modelled: allocation always succeeds. The global `cache` is never allocated in the C program; the model takes the set array as given, and `InitializeCache` requires `setNum` to be at most its length.
- `head->prev` and `tail->next` are left uninitialised by C; the model sets them to null and never reads them.
- The counter is an unbounded integer. The C `int` could overflow after 2^31 insertions.
- The `tag` field is never read or written by these functions; the model only shows that they leave it unchanged.
- AddLast and DeleteNode require every set to be linked and the sets to be separate, as `initializeCache` leaves them. C does not check that `n` is already linked before `deleteNode`, nor that it is unlinked before `addLast`.
- The hit/miss/eviction engine and its statistics do not exist in `csim.c`, so they are not modelled.
- The option check tests `quit == 1`, as the code does. `quit` is only ever 0 or 1, so this is the same as requiring `quit == 0`.

## Findings

| source | as written | input that shows it | evidently intended | confidence | as-written member | corrected member |
|---|---|---|---|---|---|---|
| csim.c:65 | `setBit + blockBit >= 63` is an `int` addition; a large sum wraps to a negative value and passes | `-s 2147483647 -b 1 -E 1 -t trace` | reject when the mathematical sum is 63 or more | not executed; signed overflow is undefined behaviour in C, and the row assumes two's-complement wrap-around | Arguments.OverflowAccepted | Arguments.CorrectedDropsOnlyOverflow |
