# Redis data structures and protocols, and the dependency planner of ui-router

A Dafny model, with proofs, of the parts of Redis 2.8.19 and of ui-router in this repository that carry real
algorithms. Where the code changes things in place, the model does: classes with fields, arrays, and loops with
invariants; each such method is proved against a function or an invariant, and what the code promises is proved
about that, mostly for whole runs.

- **Hash table** (`DictModel`, `DictGrowth`, `Dictionary`, `DictRuns`, `DictScan`, `ScanOrder`, `ScanOnce`,
  `ScanRuns`, `DictIterator`, `SafeIterator`; `Words` and `BlockIndex` below them). The two tables refine one finite map over every run; a migration ends in
  time; the bit-reversed cursor of `dictScan` covers every key that stays, exactly under a condition on the cursor
  that is proved necessary; the safe iterator returns each key that stays exactly once.
- **HyperLogLog** (`HllSketch`, `HllDense`, `HllSparse`, `HllSums`, `HllOps`, `HllLaw`, `Hll`, `HllObjects`,
  `HllCommands`). Run-length
  opcodes, packed 6-bit registers and plain registers are three codes of one register vector; adding is a maximum
  into one register through every split, merge and promotion; commands compute sketches of sets; the cached
  cardinality is never wrong.
- **LZF** (`LzfFormat`, `Lzf`). Compressor and decompressor are a round trip for every content of the
  uninitialised hash table and every hash function.
- **Append-only file** (`AofFormat`, `AofLoad`, `AofReplay`, `AofRewriteBuffer`, `AofServer`, `AofRewrite`). The log
  format round-trips and survives a cut at any byte; in every run of writes, flushes, rewrites and failures the
  file and the buffer lead to the live dataset; the rewritten file rebuilds strings and lists.
- **Transactions** (`WatchLog`, `Transactions`), **CRC-64 and DUMP payloads** (`Crc64Shift`, `Crc64Table`, `Crc64`),
  **bit operations** (`BitCount`, `BitOps`, `BitPosition`, with `LittleEndian`), **integer sets** (`IntCoding`,
  `IntSets`), **lists and background jobs** (`Adlist`, `Bio`).
- **ui-router** (`Study`, `Resolver`). The planner's order is topological, it throws exactly on cycles, and the
  resolution is fulfilled at most once and at the right moment.

`dafny verify dfyconfig.toml` checks everything. Automatic induction is switched off: every induction is written out. `Bytes` and `Slices` hold a type and facts that several files use.

## What turned out not to hold

- `dictScan`: its comment promises every key that is present from start to end. While a table is being shrunk to a
  quarter or less this fails: the larger table is enumerated upwards from the cursor's own high bits.
  `DictScan.ShrinkMissesKey` has the run, `DictScan.AlignedExactly` the exact condition for a call to cover all
  that it is responsible for; `GrowthIsAligned`, `DoublingIsAligned` and `ScanRuns.GrowingScanComplete` have the runs
  that always meet it.
- ui-router: an invocable may be started after a failure with a defined reason, if a later failure has an
  undefined one, since the last reason replaces the one before. `Resolver.StartsAfterFailure` has such a run,
  `Resolver.InvokedAfterReasonExactly` and `Resolver.Run` say for all runs exactly when it happens, and
  `Resolver.NothingAfterFailure` that it does not if all failures have reasons.
- `lzf.h` says that compressed data takes less than 104% of the original. That holds for a length L exactly if
  25 * ceil(L / 32) < L, which is for 26 to 32, 51 to 64, 76 to 96 and from 101 on: `Lzf.Compress` proves it for these
  lengths, and `Lzf.NotLessThan104` has an input of every other length that takes 104% or more.

## Model

| member | source | states |
|---|---|---|
| `DictModel.RehashOneOk` | redis-2.8.19/src/dict.c:240-271 | one round of migration keeps both tables in order: chains hashed to their buckets, no key in both, everything below rehashidx empty, counters exact; every key keeps its value |
| `DictModel.RehashFinishes` | redis-2.8.19/src/dict.c:237-274 | from any point of a migration, dictRehash with as many steps as there are buckets not yet passed, and one more, ends it |
| `DictModel.AddOk` | redis-2.8.19/src/dict.c:303-355 | dictAdd in any phase of a migration binds a new key and nothing else, and leaves a bound key alone; the invariant and the counters hold after it |
| `DictModel.OverwriteOk` | redis-2.8.19/src/dict.c:475-494 | dictFind followed by dictSetVal rebinds a bound key only |
| `DictModel.ReplaceOk` | redis-2.8.19/src/dict.c:361-380 | dictReplace rebinds the key to the value whether it was there or not, and answers whether it was new |
| `DictModel.DeleteOk` | redis-2.8.19/src/dict.c:395-430 | dictGenericDelete removes exactly the key, from whichever table holds it, and answers whether it was there |
| `DictModel.PowerFromIs` | redis-2.8.19/src/dict.c:838-848 | the search of _dictNextPower ends at the least power of two, from the one it starts with, that is not below the size |
| `DictGrowth.ExpandIs` | redis-2.8.19/src/dict.c:204-231 | dictExpand refuses during a migration and below the number of entries; else it makes an empty table of the least power of two that is enough, as the first table or as the goal of a migration |
| `DictGrowth.ResizeIs` | redis-2.8.19/src/dict.c:192-201 | dictResize goes to the least size for the entries |
| `DictGrowth.AddGrows` | redis-2.8.19/src/dict.c:816-833 | an addition makes the first four buckets, and later begins a migration exactly if the table is full: as many entries as buckets if resizing is allowed, more than five for each if not; to the least size for twice the entries |
| `DictGrowth.StaysRoomy` | redis-2.8.19/src/dict.c:816-833 | with resizing allowed, after an addition there are at most as many entries as buckets, or a migration is on |
| `DictGrowth.RoundMovesOne` | redis-2.8.19/src/dict.c:240-271 | a round of migration moves the first bucket that has entries and no other, and ends the migration if there is none |
| `DictRuns.DoRefines` | redis-2.8.19/src/dict.c:303-430 | each operation refines the operation of a finite map: invariant, meaning and answer |
| `DictRuns.RunRefines` | redis-2.8.19/src/dict.c:192-494 | over every run of additions, replacements, deletions, lookups, resizes, expansions and rehash steps the two tables behave as one finite map |
| `DictRuns.MigrationEnds` | redis-2.8.19/src/dict.c:303-305 | with no iterator open, a migration of n buckets is over by the n+1st of any additions, replacements, deletions and lookups: a step that one of them takes ends it |
| `Dictionary.NextPower` | redis-2.8.19/src/dict.c:838-848 | the loop finds the least power of two, at least 4, that is not below the size asked for |
| `Dictionary.Rev` | redis-2.8.19/src/dict.c:648-656 | the loop over halving block sizes reverses all 64 bits |
| `Dictionary.Dict.Expand` | redis-2.8.19/src/dict.c:204-231 | the class method does what the pure step says, and refuses while rehashing or when the size is too small |
| `Dictionary.Dict.SkipEmpty` | redis-2.8.19/src/dict.c:253-255 | the search for the next bucket with entries stays inside the table while entries are left |
| `Dictionary.Dict.Rehash` | redis-2.8.19/src/dict.c:237-274 | n rounds of migration in place; the bindings do not change |
| `Dictionary.Dict.Resize` | redis-2.8.19/src/dict.c:192-201 | resizing to the number of entries, at least 4, keeps all bindings |
| `Dictionary.Dict.Find` | redis-2.8.19/src/dict.c:475-494 | finds the value bound to the key, or nothing, after one rehash step |
| `Dictionary.Dict.Add` | redis-2.8.19/src/dict.c:308-355 | in place: the contents gain the binding if the key was not there, and do not change otherwise |
| `Dictionary.Dict.Replace` | redis-2.8.19/src/dict.c:361-380 | in place: the contents are those before with the key rebound |
| `Dictionary.Dict.Delete` | redis-2.8.19/src/dict.c:395-430 | in place: the contents are those before without the key |
| `Dictionary.Dict.Scan` | redis-2.8.19/src/dict.c:742-811 | the loops emit the entries, and return the cursor, that the scan step is defined by |
| `SafeIterator.DictIter.Next` | redis-2.8.19/src/dict.c:561-594 | dictNext in place: the first call registers the iterator; the entry returned is the first of those pending |
| `ScanOrder.BeforeIsReversedOrder` | redis-2.8.19/src/dict.c:648-656 | the order of cursors is the unsigned order of their bit reversals |
| `ScanOrder.NextCursorIs` | redis-2.8.19/src/dict.c:800-808 | the returned cursor is the reversed increment of the masked bits, all others zero |
| `ScanOrder.DueIsBucket` | redis-2.8.19/src/dict.c:742-811 | a call is responsible exactly for the hashes not before the cursor that share its masked bits |
| `ScanOrder.ExpansionsAre` | redis-2.8.19/src/dict.c:784-798 | the inner loop visits the buckets of the larger table that share the low bits of the cursor and are not below its own bits |
| `ScanOrder.ExpansionsCover` | redis-2.8.19/src/dict.c:784-798 | it misses nothing that the call is responsible for if and only if it starts from a field of the form 1..10..0 |
| `DictScan.OnlyBindingsReported` | redis-2.8.19/src/dict.c:742-811 | a scan hands out only bindings of the dictionary |
| `DictScan.DueIsReported` | redis-2.8.19/src/dict.c:742-811 | a bound key that an aligned call is responsible for is handed out by it, from whichever table holds it |
| `DictScan.AlignedExactly` | redis-2.8.19/src/dict.c:784-798 | a call made during a migration covers all it is responsible for if and only if the bits of its cursor between the two masks have the form 1..10..0 |
| `DictScan.ScanComplete` | redis-2.8.19/src/dict.c:658-741 | a scan from 0 to 0 hands out every key that is present throughout, whatever happens between its calls, if the calls made during migrations are aligned |
| `DictScan.GrowthIsAligned` | redis-2.8.19/src/dict.c:658-741 | all calls are aligned as long as the smaller of the tables never shrinks |
| `ScanRuns.GrowingScanComplete` | redis-2.8.19/src/dict.c:658-741 | between the calls of a scan run any additions, replacements, deletions, lookups and rehash steps, and iterators are opened and closed: every key that is there from the start and never deleted is handed out |
| `DictScan.DoublingIsAligned` | redis-2.8.19/src/dict.c:658-741 | all calls are aligned while the larger table is at most twice the smaller |
| `DictScan.FixedSizeScan` | redis-2.8.19/src/dict.c:658-741 | with fixed sizes a scan takes exactly as many calls as the smaller table has buckets, and visits each once |
| `ScanOnce.HandedOutOnce` | redis-2.8.19/src/dict.c:742-811 | no call hands out a key twice, in no phase of a migration |
| `ScanOnce.UnchangedScan` | redis-2.8.19/src/dict.c:658-741 | a scan of a dictionary that does not change, also one that stands still in a migration, hands out each binding exactly once and nothing else, so as many entries as there are bindings |
| `DictScan.ShrinkMissesKey` | redis-2.8.19/src/dict.c:784-798 | a shrink from sixteen buckets to four after the first call: a key present throughout is never handed out, contrary to the guarantee in the comment |
| `DictScan.SparseExists` | redis-2.8.19/src/dict.c:784-798 | there is a dictionary of the kind that this run starts from |
| `DictIterator.NextIs` | redis-2.8.19/src/dict.c:561-594 | dictNext returns the first of the pending keys and leaves the others pending, across both tables |
| `DictIterator.ActUndisturbed` | redis-2.8.19/src/dict.c:303-430 | an addition, lookup, replacement, resize or permitted deletion by the user leaves what is pending undisturbed, also if it starts a migration |
| `DictIterator.Conserved` | redis-2.8.19/src/dict.c:541-594 | for a key that stays bound, how often it was returned and how often it is pending add up to a constant |
| `DictIterator.SafeIteration` | redis-2.8.19/src/dict.c:554-594 | a safe iterator returns a key that stays in the dictionary at most once, and exactly once if the iteration runs to its end |
| `DictIterator.ReleaseRestores` | redis-2.8.19/src/dict.c:541-605 | wherever an iteration is given up, releasing the iterator puts the count of iterators back to what it was, so that migrations go on |
| `SafeIterator.DictIter.Release` | redis-2.8.19/src/dict.c:596-605 | dictReleaseIterator in place: the count falls by one if dictNext was called, and nothing else changes |
| `DictIterator.JustReturnedIsPermitted` | redis-2.8.19/src/dict.c:583-591 | the entry just returned may be deleted, since the next one was noted before |
| `LzfFormat.DecodeAppend` | redis-2.8.19/src/lzf_d.c:64-148 | streams of whole tokens decode one after the other |
| `LzfFormat.LimitOnly` | redis-2.8.19/src/lzf_d.c:72-125 | a stream that decodes does so for every buffer large enough for the result |
| `LzfFormat.LiteralBits` | redis-2.8.19/src/lzf_c.c:89-95 | the control byte of literals in its bits |
| `LzfFormat.RefBits` | redis-2.8.19/src/lzf_d.c:97-125 | both forms of back reference taken apart with shifts and masks as the code does: length and distance |
| `LzfFormat.TooSmall` | redis-2.8.19/src/lzf_d.c:72-125 | a stream that decodes is E2BIG, and nothing else, for every buffer too small for its data |
| `LzfFormat.CutStream` | redis-2.8.19/src/lzf_d.c:72-125 | a stream cut between tokens decodes to a front of its data, and cut anywhere else it is EINVAL |
| `LzfFormat.CopyMatch` | redis-2.8.19/src/lzf_d.c:133-143 | copying byte by byte from where the same bytes stand reproduces them, overlaps included |
| `LzfFormat.EncodesRef` | redis-2.8.19/src/lzf_c.c:211-224 | the bytes written for a match decode to the matched bytes |
| `LzfFormat.EncodesRun` | redis-2.8.19/src/lzf_c.c:263-272 | a closed run decodes to its literals |
| `Lzf.Decompress` | redis-2.8.19/src/lzf_d.c:54-149 | the loops compute the decoding of the stream, with its three checks and both error codes, and write nothing beyond the buffer |
| `Lzf.MatchLength` | redis-2.8.19/src/lzf_c.c:179-211 | the bytes up to the length found are the same, and the comparison ends only at a difference or at the limit, which the unrolled rounds may pass by up to two bytes |
| `Lzf.StopRun` | redis-2.8.19/src/lzf_c.c:173-174 | patching the header, or taking the place of an empty run back, leaves a stream that decodes to the input so far |
| `Lzf.AddLiteral` | redis-2.8.19/src/lzf_c.c:266-272 | one more literal keeps the open run, or closes it at 32 and opens the next |
| `Lzf.Reference` | redis-2.8.19/src/lzf_c.c:168-257 | closing the run and writing the reference keeps what is written a code of the input so far, or gives up for lack of room |
| `Lzf.Compress` | redis-2.8.19/src/lzf_c.c:98-294 | for every content of the hash table and every hash function: a result n > 0 is at most out_len, the n bytes decode to the input, and n is at most the length plus one byte for every 32 begun, and exactly that if no byte occurs twice; it is less than 104% of the input for every length that LessThan104 holds of; an input of equal bytes takes at most three bytes for every 264 and nine more; without a byte that occurs twice, n > 0 exactly if there is room for the literals and three bytes; with a buffer of more than 33/32 of the input and some bytes, n > 0 |
| `Lzf.LessThan104Exactly` | redis-2.8.19/src/lzf.h:56-61 | the promise of less than 104% holds for a length if and only if it holds for the longest result, which is for 26 to 32, 51 to 64, 76 to 96 and from 101 on |
| `Lzf.NotLessThan104` | redis-2.8.19/src/lzf.h:56-61 | for every other length there is an input of which the compressor makes at least 104% |
| `Lzf.Round` | redis-2.8.19/src/lzf_c.c:136-289 | one round of the loop: the position is entered in the table under the hash of its three bytes, and a reference is written exactly if the entry that was there is near enough and has the same three bytes; then the last two positions of the match are entered |
| `Lzf.SameRound` | redis-2.8.19/src/lzf_c.c:136-289 | in an input of equal bytes every round behind the first two finds a match, as long as can be |
| `Lzf.RoundTrip` | redis-2.8.19/src/lzf_c.c:98-294 | compressing and then decompressing into any buffer of the size of the input gives back the input |
| `Hll.PatLen` | redis-2.8.19/src/hyperloglog.c:444-474 | the loop finds the register index and the length of the pattern 0..01 of the hash |
| `HllSketch.PatternIs` | redis-2.8.19/src/hyperloglog.c:455-473 | the low 14 bits are the index; the count is the place of the first bit set behind them, where bit 63 counts as set |
| `HllSketch.SketchUnique` | redis-2.8.19/src/hyperloglog.c:476-498 | a set of elements has one register vector only |
| `HllSketch.SketchAdd` | redis-2.8.19/src/hyperloglog.c:485-498 | adding an element turns the sketch of a set into that of the set with the element |
| `HllSketch.OnlyTheSetMatters` | redis-2.8.19/src/hyperloglog.c:1167-1181 | the registers depend on the set of elements added, not on order or repetition |
| `HllSketch.MergeIsUnion` | redis-2.8.19/src/hyperloglog.c:1044-1083 | merging two sketches gives the sketch of the union |
| `HllDense.SetGet` | redis-2.8.19/src/hyperloglog.c:337-359 | writing a packed 6-bit register changes that register and no other |
| `HllDense.GetIs` | redis-2.8.19/src/hyperloglog.c:337-344 | the macro reads the field that the register has in its group of three bytes |
| `HllDense.GetInBits4` | redis-2.8.19/src/hyperloglog.c:337-344 | the macro for one of the four shifts, with shifts and mask on the bits |
| `HllSparse.OpcodeBits` | redis-2.8.19/src/hyperloglog.c:363-371 | the tests of the opcodes on their bits |
| `HllSparse.ValueBits` | redis-2.8.19/src/hyperloglog.c:366-375 | the field of the value in its bits |
| `HllSparse.XZeroBits` | redis-2.8.19/src/hyperloglog.c:366-375 | the length of XZERO from its two bytes |
| `HllSparse.RegsAppend` | redis-2.8.19/src/hyperloglog.c:363-385 | strings of opcodes stand for the registers of their parts, one after the other |
| `HllSparse.SetInOp` | redis-2.8.19/src/hyperloglog.c:803-816 | exchanging one opcode for others that have the register set sets it in the whole string |
| `HllSparse.MergedAtIs` | redis-2.8.19/src/hyperloglog.c:836-850 | joining two adjacent VAL opcodes of the same value keeps all registers |
| `Hll.FindOp` | redis-2.8.19/src/hyperloglog.c:669-699 | the loop finds the opcode that covers the register, and the one before it |
| `Hll.Split` | redis-2.8.19/src/hyperloglog.c:752-799 | the opcodes that replace the one found stand for its registers with the one set |
| `Hll.MergeAdjacent` | redis-2.8.19/src/hyperloglog.c:822-856 | the merge of up to five opcodes keeps the registers, and the string no longer than before; if at most four pairs of opcodes from there on could be merged, none is left that could |
| `HllOps.Exchanged` | redis-2.8.19/src/hyperloglog.c:797-828 | an opcode exchanged for at most three: only four pairs, from the opcode before on, may be left to merge |
| `HllOps.JoinedOne` | redis-2.8.19/src/hyperloglog.c:836-850 | an opcode made of two cannot be merged with what neither could be merged with |
| `HllOps.GrowthAt` | redis-2.8.19/src/hyperloglog.c:740-812 | how much longer setting a register makes the string, before anything is merged |
| `Hll.ToDense` | redis-2.8.19/src/hyperloglog.c:568-620 | the dense string has the same registers as the sparse one |
| `HllObjects.Update` | redis-2.8.19/src/hyperloglog.c:645-857 | steps 1 to 4 of hllSparseAdd: no change exactly if the register is already as great; new opcodes valid, with the register set and all others kept, and no longer than allowed, and with nothing left to merge if nothing was; promotion exactly if the string would grow beyond the limit |
| `HllObjects.HllObject.DenseAdd` | redis-2.8.19/src/hyperloglog.c:485-498 | in place: max into one register, 1 exactly if that changed it |
| `HllObjects.HllObject.Promote` | redis-2.8.19/src/hyperloglog.c:864-881 | after promotion the addition changes a register, so the assertion never fires |
| `HllObjects.HllObject.SparseAdd` | redis-2.8.19/src/hyperloglog.c:638-882 | in place, through all cases and promotion: max into one register, 1 exactly if that changed it, and the size limit is kept while sparse; dense exactly if the count is above 32 or the string would grow beyond the limit; nothing is left to merge |
| `HllObjects.HllObject.AddMany` | redis-2.8.19/src/hyperloglog.c:1166-1190 | the elements of PFADD: registers as for adding all of them; a cached cardinality that is marked valid is the one that would be computed |
| `HllObjects.HllObject.CachedCount` | redis-2.8.19/src/hyperloglog.c:1245-1279 | the cached or computed cardinality is that of the registers, and is cached then |
| `HllObjects.HllObject.MergeInto` | redis-2.8.19/src/hyperloglog.c:1044-1083 | the maximum with an object of either encoding, register by register, in place |
| `HllObjects.HllObject.SetAll` | redis-2.8.19/src/hyperloglog.c:1312-1326 | the destination of PFMERGE gets all registers of the array and is marked stale |
| `HllSums.DenseSum` | redis-2.8.19/src/hyperloglog.c:504-558 | sixteen registers a round from twelve bytes: the sum and the zero count of the registers |
| `HllSums.SparseSum` | redis-2.8.19/src/hyperloglog.c:888-920 | run by run, zeros added at the end: the same sum and zero count; invalid exactly if the registers are not all covered |
| `HllSums.RawSum` | redis-2.8.19/src/hyperloglog.c:928-954 | eight bytes at a time with the shortcut for zero words: the same sum and zero count |
| `HllLaw.PEIs` | redis-2.8.19/src/hyperloglog.c:972-981 | the entry of the table for a value is 1 divided by 2 to that value |
| `HllLaw.SumByValues` | redis-2.8.19/src/hyperloglog.c:504-558 | the sum is the number of registers of each value divided by 2 to that value, and the zeros are those of value 0 |
| `HllCommands.Store.PfAdd` | redis-2.8.19/src/hyperloglog.c:1155-1191 | PFADD changes the sketch of its key only, to that with all elements; the reply is 0 exactly if nothing changed |
| `HllCommands.Store.PfCount` | redis-2.8.19/src/hyperloglog.c:1229-1280 | PFCOUNT of one key: the estimate of its sketch, 0 for a missing key, from the cache or not |
| `HllCommands.Store.PfCountUnion` | redis-2.8.19/src/hyperloglog.c:1200-1227 | PFCOUNT of several keys: the estimate of the maximum of their sketches |
| `HllCommands.Store.PfMerge` | redis-2.8.19/src/hyperloglog.c:1285-1336 | PFMERGE makes the destination the maximum of itself and the sources, which may name it again or be missing |
| `HllCommands.RunIsSketch` | redis-2.8.19/src/hyperloglog.c:1155-1336 | after any run of PFADD and PFMERGE each key holds the sketch of the set that the run built there |
| `HllCommands.RunsAgree` | redis-2.8.19/src/hyperloglog.c:1155-1336 | two runs that build the same sets leave the same registers, so all counts agree |
| `AofFormat.CatGenericCommand` | redis-2.8.19/src/aof.c:392-415 | the loop prints the command in the log format |
| `AofFormat.PrintedSet` | redis-2.8.19/src/aof.c:392-415 | a SET command as it stands in the file, byte by byte |
| `AofFormat.RoundTrip` | redis-2.8.19/src/aof.c:581-652 | loading any concatenation of printed commands with binary arguments gives exactly those commands |
| `AofFormat.CutAnywhere` | redis-2.8.19/src/aof.c:581-652 | a log cut at any byte loads as exactly the commands wholly before the cut; valid_up_to is the end of the last; the end counts as clean just between commands |
| `AofFormat.ReadsCmd` | redis-2.8.19/src/aof.c:599-633 | the parser reads a printed command back, whatever follows it |
| `AofFormat.CutCmd` | redis-2.8.19/src/aof.c:599-633 | a printed command cut short reads as an unexpected end of file, never as a format error or as another command |
| `AofLoad.LoadAppendOnlyFile` | redis-2.8.19/src/aof.c:555-701 | the loops of the loader load what the format says, go on exactly if the file is whole or cut short with aof-load-truncated on, and cut it at valid_up_to |
| `AofReplay.TracksFed` | redis-2.8.19/src/aof.c:454-475 | with the SELECT bookkeeping, a command fed to a log that leads to the live dataset makes it lead to the next one |
| `AofReplay.TracksJoin` | redis-2.8.19/src/aof.c:1172-1260 | the log of a rewritten dataset followed by the differences leads to the live dataset |
| `AofRewriteBuffer.RewriteBuffer.Append` | redis-2.8.19/src/aof.c:89-126 | the blocks hold what they held and the bytes added; all but the last are full |
| `AofRewriteBuffer.RewriteBuffer.Size` | redis-2.8.19/src/aof.c:77-86 | the size is that of the contents |
| `AofRewriteBuffer.RewriteBuffer.Write` | redis-2.8.19/src/aof.c:131-152 | all contents are written in order, or -1 |
| `AofServer.Server.Feed` | redis-2.8.19/src/aof.c:454-503 | the command goes to the buffer and to the differences, with SELECT where the database changes; both logs still lead to the live dataset |
| `AofServer.Server.Flush` | redis-2.8.19/src/aof.c:230-390 | postponed, written whole, or written in part: what is in the file and in the buffer together does not change; with fsync always a failed write ends the server |
| `AofServer.FlushedInTime` | redis-2.8.19/src/aof.c:240-260 | a flush at t, any events, and a flush at least two seconds later, both whole: all that was to be written at t is in the file, also while fsync is at work, unless a rewritten file has taken its place |
| `AofServer.Server.WriteFailed` | redis-2.8.19/src/aof.c:292-356 | a short write is taken back by ftruncate, or else cut off the buffer |
| `AofServer.Server.StartRewrite` | redis-2.8.19/src/aof.c:1078-1128 | the child is left with the dataset of this moment; the next command fed issues SELECT |
| `AofServer.Server.RewriteDone` | redis-2.8.19/src/aof.c:1172-1313 | on success the new file is what the child wrote and the differences, and takes the place of file and buffer; on any failure nothing changes |
| `AofServer.Server.Stop` | redis-2.8.19/src/aof.c:165-188 | the buffer is flushed without delay, so that it is in the file if the write is not short; the file is switched off, and a rewrite is dropped |
| `AofServer.Server.StartAppendOnly` | redis-2.8.19/src/aof.c:192-210 | the file is on again only after a rewrite; refused while another one is going on |
| `AofServer.Server.FromFile` | redis-2.8.19/src/aof.c:555-701 | a server that starts from a file cut at any byte has the data of the commands wholly in it |
| `AofServer.Server.NothingLost` | redis-2.8.19/src/aof.c:230-503 | while the file is on, loading the file and the buffer behind it gives the live dataset |
| `AofServer.Server.Recovers` | redis-2.8.19/src/aof.c:230-1313 | cut anywhere behind what the last rewrite wrote, the file loads as a front of the log, to a dataset that was once live |
| `AofServer.Run` | redis-2.8.19/src/aof.c:165-503 | both hold after every run of commands, flushes, rewrites, exits of children and switching |
| `AofRewrite.RewriteList` | redis-2.8.19/src/aof.c:726-779 | the loop writes RPUSH commands of 64 items and one with the rest, each with the count of arguments that it has |
| `AofRewrite.BatchesPush` | redis-2.8.19/src/aof.c:726-779 | executing them builds the list in order |
| `AofRewrite.FileRebuilds` | redis-2.8.19/src/aof.c:962-1064 | executing the rewritten file on an empty dataset rebuilds all databases, whatever the order in which the keys were iterated |
| `AofRewrite.ServerRebuilds` | redis-2.8.19/src/aof.c:962-1064 | so that datasets of strings and lists are an instance of what the server model supposes |
| `WatchLog.WatchingIs` | redis-2.8.19/src/multi.c:202-229 | a client watches exactly the keys for which it called WATCH since it was last cleared |
| `WatchLog.DirtyIs` | redis-2.8.19/src/multi.c:261-305 | a client is dirty exactly if a key that it was then watching was touched, or flushed while present, since it was last cleared |
| `Transactions.Server.WatchForKey` | redis-2.8.19/src/multi.c:202-229 | the key is watched once; both lists stay inverses of each other without duplicates |
| `Transactions.Server.UnwatchAllKeys` | redis-2.8.19/src/multi.c:233-257 | the client is in no list any more, and lists that became empty are gone; the flags are left alone |
| `Transactions.Server.TouchWatchedKey` | redis-2.8.19/src/multi.c:261-279 | exactly the clients that watch the key are marked |
| `Transactions.Server.TouchOnFlush` | redis-2.8.19/src/multi.c:284-305 | exactly the clients that watch a key present in what is flushed are marked |
| `Transactions.FlushedAreGone` | redis-2.8.19/src/multi.c:284-312 | a flush of one database or all touches exactly the keys that are gone after it |
| `Transactions.Server.UnwatchCommand` | redis-2.8.19/src/multi.c:319-323 | UNWATCH clears DIRTY_CAS and no other flag |
| `Transactions.Server.DiscardTransaction` | redis-2.8.19/src/multi.c:72-77 | queue, flags and watched keys are cleared |
| `Transactions.Server.QueueMultiCommand` | redis-2.8.19/src/multi.c:56-70 | the command goes to the end of the queue |
| `Transactions.Server.FlagTransaction` | redis-2.8.19/src/multi.c:81-84 | DIRTY_EXEC is set inside MULTI only |
| `Transactions.Server.Exec` | redis-2.8.19/src/multi.c:114-172 | EXEC runs the whole queue in order exactly if neither flag is set, else nothing; the reply tells the two failures apart; afterwards the client is clean |
| `Transactions.Server.FreeClient` | redis-2.8.19/src/networking.c:674-682 | a client that is gone watches nothing |
| `Transactions.Server.ExecRunsUnlessTouched` | redis-2.8.19/src/multi.c:114-172 | in every state the flag and the list of watched keys are what the events say |
| `Transactions.Run` | redis-2.8.19/src/multi.c:56-323 | over all runs of many clients the lists mirror each other, and DIRTY_CAS is set exactly as the events say |
| `Crc64Table.TabIs` | redis-2.8.19/src/crc64.c:42-171 | each of the 256 table entries is its index shifted eight times through the reflected polynomial |
| `Crc64.ComputeCrc64` | redis-2.8.19/src/crc64.c:173-181 | the loop computes the checksum |
| `Crc64.KnownChecksum` | redis-2.8.19/src/crc64.c:183-191 | the checksum of 123456789 is the one that the source names |
| `Crc64.VersionIs` | redis-2.8.19/src/migrate.c:50-54 | the version of the footer, lower byte first |
| `Crc64.StepIs` | redis-2.8.19/src/crc64.c:173-181 | the step through the table shifts the word, with the byte added, eight times |
| `Crc64.CrcInjective` | redis-2.8.19/src/crc64.c:173-181 | the checksum is injective in the running value |
| `Crc64.BurstDetected` | redis-2.8.19/src/crc64.c:173-181 | two strings that differ only within eight bytes in a row never have the same checksum |
| `Crc64.CreateDumpPayload` | redis-2.8.19/src/migrate.c:10-36 | the payload is the object with a footer that verifies |
| `Crc64.VerifyDumpPayload` | redis-2.8.19/src/migrate.c:43-60 | the check is the length, the version and the checksum |
| `Crc64.VerifiedResidue` | redis-2.8.19/src/migrate.c:43-60 | a payload verifies exactly if its version is right and the checksum of all of it, footer included, is 0 |
| `Crc64.ChangeRejected` | redis-2.8.19/src/migrate.c:43-60 | a payload that verifies is rejected after any change within eight bytes in a row, wherever they are |
| `Study.Planner.Visit` | public/js/angular-ui-router.js:290-314 | visiting a key plans it after all that it depends on, or finds a cycle and reports it |
| `Study.PlanIsAcyclic` | public/js/angular-ui-router.js:286-315 | where there is a plan, there is no cycle |
| `Study.Study` | public/js/angular-ui-router.js:283-316 | the plan lists each invocable once, its dependencies first; the error is thrown exactly if there is a cycle, and the path that it names is one |
| `Resolver.Resolution.Proceed` | public/js/angular-ui-router.js:408-419 | nothing is invoked while the last failure has a reason; otherwise the invocable is, and fails at once if it throws |
| `Resolver.Resolution.Next` | public/js/angular-ui-router.js:383-424 | a local counts as done; any other invocable waits for the parameters that have a promise, and runs at once if there are none |
| `Resolver.Resolution.OwnDone` | public/js/angular-ui-router.js:411-414 | an invocable that is done is counted once, and the resolution is fulfilled exactly when nothing is left to wait for |
| `Resolver.Resolution.ParamFails` | public/js/angular-ui-router.js:390-404 | a parameter that fails makes the invocable fail, and the resolution with it, before it was invoked; Run says that it never is |
| `Resolver.Resolution.FulfilledOnce` | public/js/angular-ui-router.js:345-354 | the resolution is fulfilled at most once, and exactly when the parent and all invocables that no local replaces are done; then nothing has failed |
| `Resolver.Resolution.DependenciesFirst` | public/js/angular-ui-router.js:395-406 | no invocable is started twice, nor before all that it depends on are fulfilled |
| `Resolver.InvokedAfterReasonExactly` | public/js/angular-ui-router.js:356-362 | in any run, an invocable is invoked after a failure with a reason if and only if one comes to be invoked when there was such a failure and the last failure has no reason |
| `Resolver.NothingAfterFailure` | public/js/angular-ui-router.js:408-410 | if all failures of a run have reasons, nothing is invoked after the first |
| `Resolver.Run` | public/js/angular-ui-router.js:334-424 | for all events in any order: the invariant, both facts about failures, and that an invocable with a failed parameter is never invoked |
| `Resolver.StartsAfterFailure` | public/js/angular-ui-router.js:356-359 | a run with a failure that has a reason, one that has none, and then an invocation |
| `IntCoding.DecodedEncoded` | redis-2.8.19/src/intset.c:55-95 | a value written in an encoding that holds it is read back |
| `IntCoding.EncodedByte` | redis-2.8.19/src/intset.c:55-96 | the bytes of an encoding: least significant first, two's complement |
| `IntCoding.ValueEncoding` | redis-2.8.19/src/intset.c:45-52 | the narrowest encoding that holds the value |
| `IntSets.IntSet.Search` | redis-2.8.19/src/intset.c:115-154 | binary search: the position of the value, or where it belongs |
| `IntSets.RewriteNext` | redis-2.8.19/src/intset.c:167-170 | going from the last value to the first, the slot written next lies behind all values still to be read |
| `IntSets.IntSet.UpgradeAndAdd` | redis-2.8.19/src/intset.c:157-180 | all values keep their order in the wider encoding, and the new one is put before or behind them |
| `IntSets.IntSet.MoveTail` | redis-2.8.19/src/intset.c:182-201 | the bytes from one slot up are moved to another |
| `IntSets.IntSet.Add` | redis-2.8.19/src/intset.c:204-231 | the set gains the value; the contents stay strictly sorted; success exactly if it was not there; the encoding widens only if the value needs it |
| `IntSets.IntSet.Remove` | redis-2.8.19/src/intset.c:234-251 | the set loses the value; the contents stay strictly sorted; success exactly if it was there |
| `IntSets.IntSet.Find` | redis-2.8.19/src/intset.c:254-257 | whether the value is in the set, also if it fits no encoding in use |
| `IntSets.Run` | redis-2.8.19/src/intset.c:115-257 | over any run of additions, removals and lookups the byte array answers as a finite set of 64-bit integers |
| `BitCount.BitsInByteIs` | redis-2.8.19/src/bitops.c:65 | the table has the number of bits of each of the 256 bytes |
| `BitCount.WordCountIs` | redis-2.8.19/src/bitops.c:77-97 | the sums within a word count the bits of its four bytes |
| `BitCount.Popcount` | redis-2.8.19/src/bitops.c:61-102 | the count is that of all bits, for every length and alignment |
| `BitPosition.SkippedWordIs` | redis-2.8.19/src/bitops.c:136-144 | a word in memory is 0, or ULONG_MAX, exactly if all its bytes are passed over |
| `BitPosition.LoadWord` | redis-2.8.19/src/bitops.c:147-160 | shifting eight bytes in makes the word that has them most significant first, zeros behind the end |
| `BitPosition.TestsBit` | redis-2.8.19/src/bitops.c:171-182 | round k of the scan, with the one bit shifted right k times, tests bit k of the string from there on |
| `BitPosition.Bitpos` | redis-2.8.19/src/bitops.c:110-188 | the first bit of the kind, the length in bits for a missing 0, -1 exactly for a missing 1, for every length and alignment; the panic at the end is not reached |
| `BitOps.ResultBits` | redis-2.8.19/src/bitops.c:307-425 | bit by bit: AND has those that all strings have, OR those of any, XOR those of an odd number, NOT those that the string has not, where strings are continued by zeros |
| `BitOps.MaxLenIs` | redis-2.8.19/src/bitops.c:268-300 | the result is as long as the longest string |
| `BitOps.OpInMemory` | redis-2.8.19/src/bitops.c:337-386 | an operation on words in memory works on each byte by itself |
| `BitOps.FastPath` | redis-2.8.19/src/bitops.c:328-390 | the bytes that the fast path handles are the combination of all strings there |
| `BitOps.Lengths` | redis-2.8.19/src/bitops.c:300-322 | the shortest length is 0 if a key is missing, wherever it is named |
| `BitOps.Bitop` | redis-2.8.19/src/bitops.c:324-406 | the result is the bytewise combination of the strings, continued by zeros, for every number and lengths of strings |
| `Bio.Queue.Create` | redis-2.8.19/src/bio.c:126-138 | a job goes to the end of the queue and counts as pending |
| `Bio.Queue.Process` | redis-2.8.19/src/bio.c:164-178 | the job processed is the oldest that was not |
| `Bio.Queue.Finish` | redis-2.8.19/src/bio.c:180-185 | the node that the worker saved is still the first when it is deleted |
| `Bio.Queue.PendingJobs` | redis-2.8.19/src/bio.c:193-199 | the reading is the length of the queue; 0 means that every job created so far has been processed |
| `Bio.Interleave` | redis-2.8.19/src/bio.c:126-199 | under any interleaving jobs are processed once each, in the order of their creation; every reading is at least what was unprocessed then, and 0 only if nothing was |
| `Adlist.List.AddNodeHead` | redis-2.8.19/src/adlist.c:80-98 | the value comes first; all links, both ends and the length are exact |
| `Adlist.List.AddNodeTail` | redis-2.8.19/src/adlist.c:106-124 | the value comes last; all links, both ends and the length are exact |
| `Adlist.List.InsertNode` | redis-2.8.19/src/adlist.c:126-154 | the value comes just before or behind the node |
| `Adlist.List.DelNode` | redis-2.8.19/src/adlist.c:159-171 | the node goes, all others stay in order |
| `Adlist.List.Rotate` | redis-2.8.19/src/adlist.c:328-341 | the last node becomes the first |
| `Adlist.List.Index` | redis-2.8.19/src/adlist.c:313-325 | the node at the index, from the tail for negative ones, none out of range |
| `Adlist.ListIter.Next` | redis-2.8.19/src/adlist.c:221-232 | the iterator returns the nodes in order, in either direction |
| `Adlist.ListIter.DeletedBehind` | redis-2.8.19/src/adlist.c:207-220 | deleting the node just returned leaves the rest of the iteration unchanged, in both directions |
| `Adlist.SearchKey` | redis-2.8.19/src/adlist.c:285-306 | the first node that matches |

## Left out

- Chains of the hash table are sequences of entries for each bucket; the `next` pointers inside a chain are not
  modelled. `Adlist` has real nodes.
- `_dictNextPower` beyond `LONG_MAX`: sizes stay below it, where the loop still finds a power of two.
- Unsafe iterators and their fingerprints, random keys, `dictRehashMilliseconds`, hash functions (any function).
- dict_can_resize and the forced ratio of 5 come in as one parameter of each operation that may grow the table.
- `hllCount` beyond the sums: the formula with logarithm and bias is any function of the sum and the zero count
  that fits in 63 bits and gives 0 for the empty sketch. MurmurHash is any function of the element.
- Sums of powers of two are exact, not in floating point. Shifts and masks of the macros are written as division and
  remainder, and tied to their bits by lemmas, but for the macro that sets a dense register.
- Corrupted HyperLogLog strings, type checks of keys, and the replies for them.
- `AofServer.Server.Execute`: expiry is not part of the model, since relative times are read from the clock when
  logged and the rewrite skips expired keys. A command is a deterministic change of numbered databases.
- `AofRewrite.FileRebuilds`: sets, sorted sets and hashes, whose loops batch in the same way as those of lists.
- MULTI blocks inside the log; the check for an unfinished one at the end of the file; unknown commands in it.
- `AofFormat.CutAnywhere`: lengths above those that `int` and `long` hold, and negative lengths, which end the loader.
- A failing `fstat` after a rewrite, latency sampling, logging and the moment at which `fsync` takes effect.
- `Transactions.Server.Exec`: the propagation of MULTI and EXEC to slaves and to the file. The per-database tables
  of watchers are one table keyed by database and key. Which commands call `signalModifiedKey` is a parameter.
- `lzf_compress`: addresses are positions, so that an uninitialised table entry is any integer; reading beyond the
  first byte of a one-byte input gives any value.
- `lzf_decompress` of an empty input, which reads a byte that is not there.
- `redisPopcount` and `redisBitpos`: the address of the string is a number of which the remainder counts; words in memory
  are little-endian.
- BITOP is the computation on strings; key lookup, and storing the result, are not modelled.
- The RDB encoding inside a DUMP payload is any string of bytes.
- `Study.Study`: the message of the error is the list of keys; `$injector.annotate` is part of the input.
- `Resolver.Resolution.OwnDone`: the values that invocables return and receive, and the merging of the parent's values;
  promises are events from outside.
- `intset`: `intsetResize` always moves; lengths stay below those that `int` holds; random members and blob length.
- `Bio`: locks and the condition variable are the granularity of the steps; the arguments of jobs are integers.
- `Adlist`: `listDup`, `listRelease` and the custom free method, which would add easy members.
- The web application, the rest of ui-router, event loop, networking and configuration.
