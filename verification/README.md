# A verified model of librsync

librsync computes differences between files that are not on the same machine. One side makes a
*signature* of its old file (the basis): a weak rolling sum and a truncated strong sum per block. The
other side loads the signature and makes a *delta* of its new file: literal data, and copies from the
basis wherever a window of the new file has the sums of a block. The first side applies the delta to its
basis, as a *patch*, and has the new file.

Each of these is a *job*: a state machine with a function per state, which runs over whatever input
the caller has supplied and stops where the input or the room for output ends, in the middle of anything.
The model keeps this form. `Job.Job` is the C struct with its scoop (input held over between calls), its
tube (output not yet sent) and the caller's buffers; the state functions are methods of `Delta`, `Patch`,
`Mksum` and `Readsums` that update it; `Driver` is the loop that runs them. Weak sums, the signature, its
hash table, MD4, BLAKE2b and base64 are classes and loops over arrays where the C code has them.

Each kind of job is proved against a plain function on whole streams that knows nothing of buffers:
`Greedy.Delta` for the scanner, `PatchSpec.Interpret` for patches, `SigSpec.SigBytes` and `SigSpec.Load`
for signature files. The ghost field `whole` is all the input there will ever be, so that an invariant can
say how far a job has got. Then the theorems are about these functions, and about runs:

- A signature, its loading, a delta and a patch, each one cut up in any way, give the new file back
  (`RoundTrip.Restore`), whatever the strong sums, as long as windows and blocks that differ do not share both sums.
- Every run ends, and a call that has both input and room gets something done, with one exception, which is
  characterised exactly (`Driver.Iter`, `Driver.Drive`, and Findings below).
- The hash table finds the first block with given sums, if there is one, as a search of the list would
  (`Sumset.Signature.FindMatch`), because its triangular probes visit every slot (`Probing.ProbesCoverTable`).
- The rolling sums are those of the window, whatever mix of updates, rotations and rollouts led to it.
- Patches are interpreted alike wherever they are cut, a truncated delta is always noticed, and nothing after
  the end command matters. The streams that are accepted, and the ways in which all others fail, are described
  in terms of their bytes (`Grammar.InterpretIs`).
- The delta is characterised without the scanner that makes it: it is the only list of commands whose literals
  miss everywhere and whose copies go on as long as they can (`Canonical.DeltaIs`).

`dafny verify dfyconfig.toml` checks all of it.

## Files

- Runs: `RoundTrip`, `Driver`, `Stall`, `SelfDelta`.
- Jobs: `Job` (scoop, tube, buffers), `Emit`, `Delta`, `Patch`, `Mksum`, `Readsums`.
- What jobs are proved against: `Greedy`, `Command`, `PatchSpec`, `SigSpec`, `Blocks`, `NetInt`, `Protocol`.
- What these amount to, byte by byte and without recursion over a run: `Canonical` (deltas), `Grammar` (streams
  that are applied), `SigFormat` (signature files), `Wire` (encodings), `DigestBytes`, `WeakSums`, `Mixing`,
  `Base64Bits`.
- Signatures: `Sumset`, `Hashtable`, `Probing`, `SigArgs`, `Util`.
- Sums: `Checksum`, `RabinKarp`, `Rollsum`, `StrongSums`, `Mdfour`, `Blake2b`, `Digests`.
- The rest: `Base64`, and helpers in `Bytes`, `Memory` and `Congruence`.

## Model

| member | source | states |
|---|---|---|
| RoundTrip.Restore | src/whole.c:67-138 | Signature, loading, delta and patch, run one after the other under any cutting of input and output, restore the new file; every job is done, except that a delta with blocks of 64K or more may be given up |
| RoundTrip.MakeSignature | src/mksum.c:110-122 | A whole run ends, and writes exactly the signature file of the basis for the completed arguments; only bad arguments fail, and then nothing is written |
| RoundTrip.LoadSignature | src/readsums.c:135-142 | A whole run over any bytes ends with the result of `Load`, and if done with the sums that `Load` finds |
| RoundTrip.MakeDelta | src/delta.c:396-410 | A whole run writes the encoding of the greedy delta (without a signature: of literals that make up the file), and leaves the statistics of these commands, which account for each byte of the file and of the delta; it can fail only with an internal error, with blocks of 64K or more |
| RoundTrip.ApplyPatch | src/patch.c:221-229 | A whole run over any bytes ends with the output and the result of the interpreter, or when the callback fails with a prefix of that output; a reliable callback fails only where the basis ends |
| RoundTrip.DeltaOfLoaded | src/delta.c:122-162 | The delta against the signature of a basis is encodable, and the interpreter turns its bytes and the basis into the file |
| RoundTrip.SlackMeans | src/delta.c:367-381 | Commands that copy nothing mean the same over every basis |
| Driver.Iter | src/job.c:85-106 | A call ends; with input and room, it takes input or sends output, unless the job is stalled, and then and only then the call reports that no progress was made |
| Driver.Work | src/job.c:108-132 | The loop over state functions terminates; blocked means that there is no room, or that more input may come; done means that the state is cleared and the tube empty |
| Driver.Turn | src/job.c:115-130 | One turn keeps the invariant and makes (input and room, rank of the state, tube) smaller whenever the loop goes on |
| Driver.Catchup | src/job.c:113-120 | In every state, emptying the tube keeps the invariant of that state or ends the job as its specification does; with input and room, a job that was not stalled has got something done, or can go on; a stalled one is left as it was |
| Driver.Step | src/job.c:121-129 | Every state function keeps the invariant of its kind of job, and gets something done, goes to a state that will, or leaves output in the tube; stalled jobs stay as they are |
| Driver.Complete | src/job.c:69-83 | Recording the result keeps what the last state function left behind |
| Driver.NeverStalls | src/delta.c:210-218 | In any reachable state of a job with blocks shorter than 64K, the job is not stalled |
| Driver.Drive | src/job.c:139-165 | Total correctness: over input in pieces of any sizes and room in pieces of any sizes, the run ends, and the output collected is all that the job sent |
| Driver.Round | src/job.c:146-162 | Each round of feeding and running gets nearer the end of input and output |
| Stall.GivesUp | src/job.c:94-104 | For every block length from 64K on and every strong sum there is a basis, a file and a way of cutting that makes a delta job end in the no-progress error |
| Stall.SecondCall | src/delta.c:321-340 | Once the first match starts to be processed behind a drained tube, the job stalls: it has scanned all it has, waits for the end, and holds the match data in the caller's buffer |
| Stall.OneDoesNotMatch | src/rabinkarp.h:62-95 | The weak sums of a block of zeros and of one that starts with 1 differ for every block length, since the multiplier is 1 modulo 4 |
| SelfDelta.SelfDeltaIsOneCopy | src/delta.c:256-281 | The delta of a file against its own signature is one copy of the whole file, short last block included, if and only if no two blocks have the same sums |
| Greedy.DeltaMeans | src/delta.c:122-202 | If windows and blocks with the same sums are equal, the greedy delta copies only what the basis has, and rebuilds the file |
| Greedy.DeltaIsProper | src/delta.c:256-319 | Every command of the delta is non-empty and fits its opcode, with literals of at most MAX_MISS_LEN bytes |
| Greedy.ScanExtent | src/delta.c:122-202 | From any position, the commands to come stand for exactly the bytes to come and those pending |
| Greedy.AfterFollows | src/delta.c:135-151 | However many steps the loop has made, the commands so far followed by the scan of the rest are the delta |
| Greedy.NoCollisionMeansGenuine | src/sumset.c:242-254 | Matches found through the signature are genuine if only equal data have equal sums |
| Canonical.DeltaIs | src/delta.c:122-363 | The delta is the one list of commands for the file in which no window within a literal is found, literals go on to the next match, the end or 65533 bytes, copies follow the blocks found, and go on as long as the next block found adjoins in the basis; said without a scanner, and with no other list like it |
| Canonical.NeighboursAreApart | src/delta.c:258-299 | Two copies in a row never adjoin in the basis, a copy that is not the last command has whole blocks, and a literal is followed by another one only when it is full |
| Canonical.LookupIs | src/sumset.c:242-254 | In terms of the sums themselves, a lookup gives the offset of the least block that agrees in both, where zero and the largest word are the same weak sum, and -1 if and only if there is none |
| Blocks.CutAt | src/mksum.c:88-108 | Block i is the slice at i * block_len, the last one being short |
| Blocks.CutCount | src/mksum.c:88-108 | There are as many blocks as it takes to cover the file, and no more |
| Blocks.OwnBlockMatches | src/sumset.c:242-254 | Every block of the basis is found in its signature, at its own offset or an earlier one |
| Command.LiteralReadsBack | src/emit.c:37-64 | The head of an emitted literal, looked up in the opcode table, is that of a literal of the same length |
| Command.CopyOpWidths | src/emit.c:66-92 | The opcode chosen for a copy stands in the table for the widths chosen for its offset and length |
| Command.CopyReadsBack | src/emit.c:66-103 | The head of an emitted copy, looked up and decoded, is that of a copy of the same offset and length |
| Command.EncodeAppend | src/emit.c:37-111 | Encoding distributes over concatenation: a delta is the concatenation of its commands |
| Command.ApplyAppend | src/patch.c:94-201 | So does applying commands |
| Command.ApplyExtent | src/patch.c:114-201 | Commands rebuild as many bytes as their lengths add up to |
| Command.TallyExtent | src/emit.c:55-60 | The statistics account for each byte that the commands stand for, and for each byte of the delta |
| Command.TallyAccounts | src/emit.c:94-99 | So literal and copy bytes add up to the length of the file rebuilt |
| Wire.TallyIs | src/emit.c:55-103 | The counters of each kind are the number of its commands, the length of their data, and what else they take in the encoded delta |
| Wire.TableEntries | src/prototab.c:27-284 | Every entry of the opcode table, against the listed widths of lengths and offsets |
| Wire.MagicBytes | src/emit.c:31-35 | A delta starts with the bytes 72 73 02 36 |
| Wire.LiteralHeadIs | src/emit.c:37-64 | The head of a literal, byte for byte, for each range of lengths |
| Wire.LiteralHeadIsShortest | src/emit.c:37-64 | No opcode in the table expresses the literal with a shorter head |
| Wire.CopyHeadIs | src/emit.c:66-103 | The head of a copy: the opcode listed for the two widths, offset first, then both in big-endian, each width the least that holds its value |
| Wire.CopyHeadIsShortest | src/emit.c:66-103 | No opcode in the table expresses the copy with a shorter head |
| PatchSpec.InterpretDelta | src/patch.c:51-219 | The interpreter, on the bytes of any commands that fit the basis, is done, and writes what the commands mean |
| PatchSpec.CutIsNotDone | src/patch.c:51-67 | Cut anywhere before its end, a delta is reported as ended early, never taken for whole |
| PatchSpec.DoneIsFinal | src/patch.c:101-103 | Bytes after the end command change neither output nor result |
| PatchSpec.CopySplits | src/patch.c:158-201 | A copy served in parts comes to the same as one served whole |
| Grammar.InterpretIs | src/patch.c:51-219 | What the interpreter makes of any stream of bytes: without the magic number it refuses it, and else it writes what well-formed commands mean as long as they fit the basis, and then ends as the next bytes have it: done at an end command, corrupt at a malformed one, truncated, or asking for what the basis does not have; in each case if and only if |
| Grammar.DoneIff | src/patch.c:51-111 | A patch is done, with a given file, if and only if an end command follows well-formed commands that fit the basis and mean that file |
| Grammar.Parse | src/patch.c:51-201 | Every stream is a list of well-formed commands that fit the basis, and then something that stops it |
| Grammar.MalformedIsCorrupt | src/patch.c:107-145 | A reserved opcode, a literal or copy of length zero, a negative length or a negative offset, after any commands and before any bytes, makes the patch corrupt, with what the commands mean written |
| Grammar.StopAfterCommands | src/patch.c:51-201 | Whatever stops a stream after the commands of a delta, their data are written, and then what the stop leaves |
| Grammar.EncodeSpells | src/emit.c:37-103 | What a delta job writes for a command is one of its well-formed spellings |
| Grammar.SignOf | src/netint.c:74-87 | Parameters are negative exactly when they have eight bytes and the top bit is set, and zero exactly when all their bytes are |
| SigSpec.LoadSigBytes | src/readsums.c:39-133 | Loading the signature file of a file gives its parameters, and the sums of its blocks in order, mixed as the index wants them |
| SigSpec.FieldReadsBack | src/netint.c:89-97 | A 4-byte field that was written reads back, as a word, and as an int while it is below 2^31 |
| SigSpec.InitKeeps | src/sumset.c:183-213 | Complete arguments are not changed by the checks and defaults |
| SigFormat.SigBytesHeader | src/mksum.c:45-63 | A signature file is the magic number, the block length and the strong length, four bytes each, and equally many bytes for each block |
| SigFormat.SigBytesAt | src/mksum.c:67-85 | For each block in its place: the weak sum that the magic number asks for, not mixed, and the first bytes of the strong sum that it asks for, with each of the four magic numbers spelt out |
| SigFormat.LoadIs | src/readsums.c:39-133 | What any bytes are loaded as: the errors of the header in the order in which they are noticed, and then each pair of sums that is there in full, mixed for the two old magic numbers only; the result is an early end exactly when four bytes or more are left over |
| SigFormat.CutIsNoticed | src/readsums.c:54-80 | A signature file cut short is refused exactly when the cut is within its header or leaves four bytes or more of a pair; else it loads, with fewer blocks |
| SigFormat.ArgumentsAre | src/sumset.c:183-213 | Defaults and errors of the arguments of a new signature, with every constant spelt out |
| NetInt.ReadBack | src/netint.c:44-87 | A value written in enough bytes reads back |
| NetInt.WriteBack | src/netint.c:44-87 | Bytes read as a value are the bytes that the value is written in |
| Wire.BigEndianDigit | src/netint.c:44-57 | Byte i of an integer is the digit of its place in base 256, the highest place first |
| Wire.SignedValues | src/netint.c:74-97 | Eight bytes are read as the signed 64-bit number of their residue class, and four as the signed 32-bit one |
| NetInt.IntLenIsLeast | src/netint.c:99-110 | The width chosen is the least of 1, 2, 4 and 8 that holds the value |
| NetInt.Fill | src/netint.c:44-57 | The loop from the last byte down leaves the big-endian representation, also of values that are truncated or negative |
| NetInt.Accumulate | src/netint.c:74-87 | The loop gives the big-endian value, wrapped to a signed 64-bit integer |
| Emit.EmitDeltaHeader | src/emit.c:31-35 | The magic number is queued |
| Emit.EmitLiteralCmd | src/emit.c:37-64 | The literal head is queued, and counted; at most 0x40 bytes go into the opcode |
| Emit.EmitCopyCmd | src/emit.c:66-103 | The copy head is queued, and counted |
| Emit.EmitEndCmd | src/emit.c:105-111 | The end command is queued |
| Job.Job.MakeRoom | src/scoop.c:68-92 | Growing the scoop or moving its contents to the front keeps the contents, and leaves room for len bytes |
| Job.Job.ScoopInput | src/scoop.c:66-107 | The scoop then holds len bytes, or all there is; no byte of the stream is lost or reordered |
| Job.Job.ScoopAdvance | src/scoop.c:117-136 | The position moves on by len, in the scoop or else in the caller's buffer |
| Job.Job.Readahead | src/scoop.c:148-179 | The next len bytes of the stream, wherever they are, without consuming any; blocked or ended exactly when they are not there |
| Job.Job.ScoopRead | src/scoop.c:192-200 | The same, consuming them |
| Job.Job.ScoopReadRest | src/scoop.c:212-221 | All that is there, consumed; never an empty result |
| Job.Job.CatchupWrite | src/tube.c:63-82 | As many of the bytes held back as there is room for are sent, in order, and the rest is kept |
| Job.Job.CatchupCopy | src/tube.c:88-114 | Input is copied through, first from the scoop and then from the caller's buffer, until the copy, the input or the room ends |
| Job.Job.Catchup | src/tube.c:120-139 | What was promised is sent as far as there is room and input; done if and only if the tube is empty, and a copy cut short by the end of the input is an error |
| Job.Job.TubeCopy | src/tube.c:160-165 | The next len bytes of input become part of the promised output |
| Job.Job.TubeWrite | src/tube.c:174-181 | The bytes become part of the promised output |
| Job.Job.SquirtNetint | src/netint.c:44-57 | The big-endian representation becomes part of the promised output |
| Job.Job.SuckNetint | src/netint.c:74-87 | The value of the next len bytes is read if they are there, else nothing is consumed |
| Delta.GetInput | src/delta.c:210-218 | All input at hand is brought into view in one piece; blocked until there is a block and a full literal of it, or the input has ended |
| Delta.FindMatch | src/delta.c:229-254 | The offset of the first block with the sums of the window at the scan position, or none; the weak sum kept is the sum of that window |
| Delta.AppendMatch | src/delta.c:258-281 | The scanner's step for a match: it extends the pending match exactly if it continues it in the basis, else the pending command is emitted |
| Delta.AppendMiss | src/delta.c:288-299 | The scanner's step for a miss: the pending literal grows, unless it is full or a match is pending, which is then emitted |
| Delta.AppendFlush | src/delta.c:302-319 | Exactly the pending command is emitted, if there is one, and its data go with it |
| Delta.ProcessMatch | src/delta.c:332-340 | Matched data are dropped from the input, and nothing else is lost from view |
| Delta.ProcessMiss | src/delta.c:355-363 | Missed data are promised right after their command |
| Delta.ScanStep | src/delta.c:135-151 | One pass of the scan loop is one step of the greedy scanner, with the rolling sum rotated to match |
| Delta.FlushStep | src/delta.c:174-193 | One pass of the flush loop is one such step too, near the end of the input where windows get shorter |
| Delta.RunHeader | src/delta.c:384-394 | Keeps the invariant of delta jobs, and goes on to scan, or to slack without a signature |
| Delta.RunScan | src/delta.c:122-162 | Whatever it returns, position, pending command and commands emitted are those of the greedy scanner after as many steps, and the output promised is their encoding; it has got something done, or waits for room or input; when stalled it is blocked and does nothing |
| Delta.RunFlush | src/delta.c:164-202 | Keeps the same over the last, shorter windows; when it ends, the commands emitted are all of the greedy delta |
| Delta.RunSlack | src/delta.c:367-381 | One literal of all the input at hand, after which the literals so far rebuild the input so far; without any, the job waits, or goes on to its end at the end of the input |
| Delta.RunEnd | src/delta.c:204-208 | With the end command, the output promised is the complete delta |
| Delta.Begin | src/delta.c:396-410 | A new job satisfies the invariant; an empty signature counts as none |
| Patch.RunHeader | src/patch.c:204-219 | Keeps the invariant that output so far, and what the interpreter makes of the rest, are the interpretation of the whole stream; too few bytes, or another magic number, end the job as they end the interpreter |
| Patch.RunCmdbyte | src/patch.c:51-67 | Keeps that invariant over taking a command byte; the end of input in its place is an error, as for the interpreter |
| Patch.RunParams | src/patch.c:71-91 | Keeps it over reading the parameters, which happens once both are there in full, and fails as the interpreter does if the input ends within them |
| Patch.RunRun | src/patch.c:94-111 | Keeps it; the job is done exactly at an end command, and fails as the interpreter does at a reserved one |
| Patch.RunLiteral | src/patch.c:114-130 | Keeps it, with the data promised though they may not be there yet; a length of zero or less fails as the interpreter does |
| Patch.RunCopy | src/patch.c:132-154 | Keeps it; a negative offset, or a length of zero or less, fails as the interpreter does, before anything is copied |
| Patch.RunCopying | src/patch.c:158-201 | Keeps it over each part that the callback delivers into the room there is; if the callback fails, what has been sent is a prefix of the interpretation, and all of it up to the end of the basis if the callback is reliable |
| Patch.Catchup | src/tube.c:88-139 | A literal whose data end early makes the job fail as the interpreter does; anything else keeps the invariant |
| Patch.SentBound | src/patch.c:51-219 | At every moment, what has been sent is a prefix of what the interpreter writes |
| Mksum.RunHeader | src/mksum.c:45-63 | Keeps the invariant that output so far, and the sums of the input not yet read, are the signature file; bad arguments are the only failure, with nothing written |
| Mksum.DoBlock | src/mksum.c:67-85 | Writing the weak and the truncated strong sum of the block read restores that invariant |
| Mksum.RunGenerate | src/mksum.c:88-108 | Keeps it over full blocks and a short last one; when it is done, the output promised is the signature file |
| Mksum.Begin | src/mksum.c:110-122 | A new job satisfies the invariant, with the caller's arguments |
| Readsums.RunMagic | src/readsums.c:122-133 | Keeps the invariant that fields and sums read so far, and the rest of the file, decide the result of `Load`; a file that is too short fails as `Load` does |
| Readsums.RunBlocklen | src/readsums.c:104-120 | Keeps it; a block length below one is corrupt, as for `Load` |
| Readsums.RunStronglen | src/readsums.c:82-102 | Keeps it; a strong length out of range is corrupt, and one that the magic number does not allow a bad argument, as for `Load` |
| Readsums.RunWeak | src/readsums.c:54-67 | Keeps it; the end of the file within or instead of a weak sum ends the signature well, as for `Load` |
| Readsums.RunStrong | src/readsums.c:69-80 | Keeps it; the end of the file within a strong sum is an error, as for `Load` |
| Readsums.AddSum | src/readsums.c:39-52 | The pair of sums is added as `Load` does |
| Sumset.Signature.Init | src/sumset.c:183-213 | Arguments are completed and checked, and the signature set up with them, or left alone on an error |
| Sumset.Signature.AddBlock | src/sumset.c:222-240 | A block is appended, with a rollsum mixed on the way in |
| Sumset.Signature.BuildHashTable | src/sumset.c:274-292 | The index holds the first block of every pair of sums, and no other, and the table never gets full |
| Sumset.Signature.FindMatch | src/sumset.c:242-254 | For any weak sum and data, the offset of the first block in the list with these sums, or -1 if there is none |
| Sumset.FirstFromIsLeast | src/sumset.c:242-254 | The list search finds the least matching index, and none only if there is none |
| Sumset.NotIndexed | src/sumset.c:282-290 | Sums that the index does not find, no block has |
| Sumset.IndexedIsFirst | src/sumset.c:282-290 | A block found through the index is the first one with its sums |
| Hashtable.Hashtable.Sizes | src/hashtable.c:40-43 | The size is the least power of two, from two up, that keeps the load below 7/10 |
| Hashtable.Hashtable.constructor | src/hashtable.c:36-66 | A new table is empty and in order, and of that size |
| Hashtable.Hashtable.SetBloom | src/hashtable.h:154-159 | Exactly the bit of the upper bits of the hash is added to the filter |
| Hashtable.Hashtable.GetBloom | src/hashtable.h:161-166 | Whether that bit is in the filter |
| Hashtable.Hashtable.Add | src/hashtable.h:296-310 | The entry is added under its key, and nothing else changes; refused exactly when only one bucket is left |
| Hashtable.Hashtable.Find | src/hashtable.h:322-346 | An entry with the key that the match accepts, or none, and then there is none in the whole table; the match's sum is not changed |
| Hashtable.BlockMatch.Cmp | src/sumset.c:63-77 | Strong sums are compared, calculating this one on first use only, and that makes no difference |
| Hashtable.SetThenGet | src/hashtable.h:154-166 | Setting a bit changes this bit only |
| Hashtable.UpperIs | src/hashtable.h:154-166 | The filter looks at the upper bits of a hash, as many as index the table |
| Hashtable.Layout.BloomIsSound | src/hashtable.h:329-332 | A hash whose filter bit is clear is in no bucket |
| Hashtable.Layout.PutOk | src/hashtable.h:296-310 | Filling the first empty bucket of a probe sequence keeps every entry reachable |
| Hashtable.Layout.NothingBeyond | src/hashtable.h:333-345 | An empty bucket at the end of a probe proves that there is nothing to find |
| Probing.MaskIsModulo | src/hashtable.h:232-237 | Masking is reduction modulo the table size |
| Probing.AtIsTriangular | src/hashtable.h:232-237 | Step by step, probing goes to the triangular offsets |
| Probing.ProbesDiffer | src/hashtable.h:232-237 | No slot is probed twice in as many steps as the table has slots |
| Probing.ProbesCoverTable | src/hashtable.h:232-237 | So every slot is probed exactly once |
| Checksum.CalcWeakSum | src/checksum.c:34-47 | The weak sum of the data, of either kind, not mixed |
| Checksum.WeakSum.Update | src/checksum.h:85-92 | The window grows by the data |
| Checksum.WeakSum.Rotate | src/checksum.h:94-101 | The window slides by a byte |
| Checksum.WeakSum.Rollin | src/checksum.h:103-109 | The window grows by a byte |
| Checksum.WeakSum.Rollout | src/checksum.h:111-117 | The window loses its oldest byte |
| Checksum.WeakSum.Digest | src/checksum.h:119-126 | Whatever operations built the window, the digest is that of a fresh sum over it, mixed for rollsums |
| Mixing.UnmixMix | src/hashtable.h:170-178 | The mixing of rollsums can be undone, step by step and with the inverses of its factors modulo 2^32, for every word; so it merges no two sums |
| Mixing.MixesOne | src/hashtable.h:170-178 | The mixing of 0 and of 1 |
| WeakSums.RollsumIs | src/rollsum.h:72-75 | The low half of a rollsum is the sum of the bytes plus 31 each, and the high half the sum weighted by distance from the end, modulo 2^16 |
| WeakSums.RabinKarpIs | src/rabinkarp.h:62-95 | A RabinKarp sum is the number with a leading one and the bytes as digits in base 0x08104225, modulo 2^32 |
| WeakSums.RollsumValues | tests/rollsum_test.c:34-49 | Values that the tests expect |
| WeakSums.RabinKarpValues | tests/rabinkarp_test.c:33-48 | Values that the tests expect |
| RabinKarp.RabinKarp.Update | src/rabinkarp.c:88-105 | Sixteen bytes at a time and then one by one, hash and multiplier become those of the longer window, for lengths beyond 32 bits too |
| RabinKarp.RabinKarp.Rotate | src/rabinkarp.h:71-76 | The hash becomes that of the window slid by a byte |
| RabinKarp.RabinKarp.Rollin | src/rabinkarp.h:78-83 | The hash becomes that of the longer window |
| RabinKarp.RabinKarp.Rollout | src/rabinkarp.h:85-90 | The hash becomes that of the shorter window, the multiplier being divided by means of its inverse modulo 2^32 |
| RabinKarp.PowerOf | src/rabinkarp.c:74-86 | The loop over bits and the table gives the power of the multiplier |
| RabinKarp.TableEntry | src/rabinkarp.c:37-71 | Entry i of the table is MULT^(2^i) |
| RabinKarp.PowerTruncates | src/rabinkarp.c:104-104 | Cutting a length down to 32 bits leaves the power the same |
| RabinKarp.PowerDown | src/rabinkarp.h:85-90 | Multiplying with the inverse takes one factor off a power |
| RabinKarp.HashCons | src/rabinkarp.h:71-90 | What the oldest byte contributes to the hash, the seed's part included |
| RabinKarp.Par2x8IsSixteenSteps | src/rabinkarp.c:26-34 | Sixteen bytes by nested pairs come to sixteen single steps |
| Rollsum.Rollsum.Update | src/rollsum.c:31-55 | With the offset added only at the end and 16-bit sums kept in wide registers, both sums become those of the longer window |
| Rollsum.Rollsum.Rotate | src/rollsum.h:51-56 | Both sums become those of the window slid by a byte |
| Rollsum.Rollsum.Rollin | src/rollsum.h:58-63 | Both sums become those of the longer window |
| Rollsum.Rollsum.Rollout | src/rollsum.h:65-70 | Both sums become those of the shorter window |
| Rollsum.Rollsum.Digest | src/rollsum.h:72-75 | The low 16 bits of the two sums, s2 on top |
| Rollsum.DeferredOffset | src/rollsum.c:46-54 | The offset may be added after the loop, although its product wraps before it is halved |
| Rollsum.SumsCons | src/rollsum.h:51-70 | The oldest byte counts once in s1, and once for each byte of the window in s2 |
| SigArgs.Args | src/sumset.c:113-181 | Defaults, and which arguments are refused; the recommended block length is the root rounded down to a multiple of 128; a strong length below the minimum passes, even one that is longer than the hash |
| SigArgs.MinStrongLenCoversComparisons | src/sumset.c:146-163 | With n bytes as the recommended minimum, comparing every offset of a file 16 MB longer with every block takes fewer than 2^(8(n - 2) + 2) comparisons, so that two bytes of strong sum, less two bits of rounding, are to spare |
| SigArgs.MinStrongLenIsLeast | src/sumset.c:158-163 | A length reaches the recommended minimum if and only if it has two bytes, and in the others as many bits as the two logarithms together; no length shorter than the minimum will do |
| SigArgs.MinStrongLenFits | src/sumset.c:137-144 | With the recommended block length, the minimum fits every hash |
| SigArgs.PassedArgsCheck | src/sumset.c:164-179 | Arguments that were not refused fail the final assertion if and only if the file size is known and the minimum exceeds the hash, and the length asked for is the minimum or lies between |
| SigArgs.MinStrongLenCanExceedMd4 | src/sumset.c:158-163 | The minimum does exceed MD4, for a file of 2^57 bytes in blocks of one |
| Util.LongLn2 | src/util.c:70-77 | The binary logarithm, rounded down |
| Util.LongSqrt | src/util.c:79-94 | The integer square root, for all values below 2^62; from there on a trial square overflows |
| Mdfour.Mdfour.Update | src/mdfour.c:273-308 | The message grows by the data, whatever was left over in the tail |
| Mdfour.Mdfour.Tail | src/mdfour.c:245-271 | The message is padded to whole blocks, in one block or two, with its length in bits modulo 2^64 |
| Mdfour.Mdfour.Result | src/mdfour.c:310-318 | The digest of the whole message |
| Mdfour.Sum | src/mdfour.c:320-327 | A message fed in any pieces has the digest of their concatenation |
| Mdfour.PaddedLength | src/mdfour.c:245-271 | Padding up to byte 56 of this block or the next one leaves room for the 8 bytes of the length, and makes whole blocks |
| DigestBytes.PaddedByte | src/mdfour.c:245-271 | The padded message byte by byte: the message, 0x80, zeros, and the length in bits with its low byte first |
| DigestBytes.Md4Byte | src/mdfour.c:310-318 | Byte 4j + i of the digest is byte i, from the low end, of chaining word j after all blocks, which start from the four words of RFC 1320 |
| DigestBytes.LittleEndianDigit | src/mdfour.c:144-165 | Byte i of a stored word is the digit of place i in base 256 |
| Blake2b.Blake2bState.IncrementCounter | src/blake2/blake2b-ref.c:66-70 | The counter adds in 128 bits, carry included |
| Blake2b.Blake2bState.Update | src/blake2/blake2b-ref.c:221-246 | The message grows by the data; a full last block is held back |
| Blake2b.Blake2bState.Final | src/blake2/blake2b-ref.c:248-270 | The hash of the whole message; refused for a short output, and the second time |
| Blake2b.HashOf | src/blake2/blake2b-ref.c:273-300 | A message fed in any pieces has the hash of their concatenation |
| DigestBytes.HashIsChain | src/blake2/blake2b-ref.c:221-262 | The hash compresses block after block, each with the count of bytes up to its end; the last one is filled up with zeros, counts its own bytes, and is marked, and is never empty unless the message is |
| DigestBytes.SerialByte | src/blake2/blake2b-ref.c:264-267 | Byte 8j + i of the output is byte i, from the low end, of word j |
| StrongSums.CalcStrongSum | src/checksum.c:59-70 | The strong sum computed through either streaming interface is the function that signatures are defined with |
| DigestBytes.StrongByte | src/checksum.c:59-70 | The MD4 kind of strong sum is all 16 bytes of the digest, and the BLAKE2 kind the first four words of the hash, byte by byte |
| StrongSums.StrongIsOk | src/checksum.c:59-70 | These functions have the lengths that signatures expect |
| Base64.Encode | src/base64.c:60-89 | Each character stands for its six bits of the buffer, and the string is ended after the last |
| Base64.Decode | src/base64.c:30-57 | In place, the digits before the first other character become the bytes they stand for |
| Base64.RoundTrip | src/base64.c:30-89 | Decoding the sextets of a buffer gives the buffer back, and a zero byte more unless its length is a multiple of three |
| Base64.SextetAt | src/base64.c:60-89 | The sextet at bit 6 * i lies in one byte or across two, as the code distinguishes |
| Base64.Cursor | src/base64.c:30-57 | Decoding in place never overwrites a character that is still to be read |
| Base64Bits.DigitIs | src/base64.c:62-63 | Characters are looked up in the alphabet of RFC 1521 |
| Base64Bits.SextetsAreBits | src/base64.c:60-89 | Four characters carry the same 24 bits as three bytes, in order, with zero bits to fill up the last group |
| Base64Bits.OctetsAreBits | src/base64.c:30-57 | Three bytes decoded carry the bits of four characters, in order |
| Base64.EncodeThenDecode | src/base64.c:30-89 | Encoding and decoding in place gives the bytes back, and a zero byte more unless they come in threes |

## Findings

Properties that one would expect of the code, and that it does not have. Each is stated with the exact
condition, and with an input.

| property | source | holds exactly when |
|---|---|---|
| A call with both input and room makes progress | src/job.c:85-106, src/delta.c:210-218, src/delta.c:321-340 | Unless the job is stalled (`Driver.Iter`), which is a delta in its scan state with an empty tube, nothing in the scoop, no end of input, and at least block_len + 64K bytes in the caller's buffer that have all been scanned. In terms of the block length: never for block_len < 64K (`Driver.NeverStalls`), and reachable for every block_len >= 64K, with every strong sum (`Stall.GivesUp`). The input: a byte 1 and then zeros against a block of zeros, with room first for the magic number only and then for the literal only. |
| Arguments that `rs_sig_args` accepts pass its own final assertion | src/sumset.c:164-179, src/sumset.h:93-101 | Unless the file size is known, the recommended minimum exceeds the hash, and the strong length is asked to be the minimum or lies above the hash and below the minimum (`SigArgs.PassedArgsCheck`): then only a warning is given, or none, and the assertion fails. Never with the recommended block length (`SigArgs.MinStrongLenFits`); the input is MD4 with 2^57 bytes in blocks of one (`SigArgs.MinStrongLenCanExceedMd4`). |
| Decoding what was encoded gives the bytes back | src/base64.c:30-89 | Exactly for lengths that are multiples of three; otherwise one zero byte follows (`Base64.RoundTrip`). |
| A signature file that was cut short is noticed | src/readsums.c:54-67 | Exactly when the cut is within the header, or leaves four bytes or more of a pair of sums (`SigFormat.CutIsNoticed`); any other cut, for example one after 12 bytes, loads as the signature of fewer blocks. |
| The integer square root fits its arithmetic | src/util.c:79-94 | Exactly for values below 2^62 (`Util.LongSqrt`). |

Where documentation and code differ, the model follows the code. doc/formats.md:67 gives the literal
opcodes as 0x41 to 0x44, while src/emit.c:37-64 also writes, and the table also reads, 0x01 to 0x40 with the
length in the opcode. The comment on the table of powers (src/rabinkarp.c:36) starts its exponents at
2^1, while its entries start at 2^0 (`RabinKarp.TableEntry`).

## Left out

- The compression functions of MD4 and BLAKE2b, and BLAKE2b's initial state: they are arbitrary functions and an arbitrary state here, and all results hold for every choice. Keyed BLAKE2b hashing, its parameter block, and its last-node flag.
- Variants for other platforms in src/mdfour.c: byte order, alignment, and the two 32-bit halves of the length where there is no 64-bit type.
- RoundTrip.Restore: assumes that differing windows and blocks do not share both sums; without this the design of the protocol gives no guarantee. It also assumes that ten times the number of blocks stays below 2^31, as the arithmetic of src/hashtable.c:40 does.
- RoundTrip.MakeDelta: without a signature, files of 2^31 bytes and more are not covered, because src/emit.c:37 takes the length of a literal as an int.
- SigArgs.Args: does not cover file sizes from 2^62 up, where the square root overflows, nor the narrowing of a size_t block length to int in src/sumset.c:193; block lengths of 2^31 and more are excluded.
- Hashtable.Hashtable.constructor: does not model the overflow of the int product in src/hashtable.c:40, nor allocation failure, here or elsewhere.
- RoundTrip.ApplyPatch: the callback is a function of offset, length and number of the call; it answers with at least one byte and at most as many as asked, or fails. One that succeeds with nothing at all, for ever, or with too much, is not covered.
- Job.Job.Readahead: returns a copy of the bytes where the code returns a pointer, so that the scan buffer is a sequence that is renewed whenever the C pointer is; that the pointer stays good between two calls is not modelled.
- Driver.Drive: the callbacks that fill and drain the buffers are two functions for the sizes of the pieces; their errors, and files, are not modelled. A caller that supplies neither input nor room for ever is not covered.
- Driver.Iter: is not stated for a job that has already failed or finished.
- Hashtable.Hashtable.Find: the statistics of lookups, and iteration over a table.
- Block signatures are values in a list; their packing into memory, growth by doubling, and the size estimate from the length of a signature file.
- Timestamps and the statistics of signature and patch jobs; those of the literal and copy commands of a delta are modelled.
- The command line program, logging, version strings, file input and output, and the code for opening files.
- Widths of size_t and int are unbounded except where wrap-around matters: weak sums, network integers, table indices, the counters of the hashes, and the range checks listed above.
- Base64.Decode: the shifts by computed amounts are a table over the four amounts that occur; `Cursor` shows that no others do.
