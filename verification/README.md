# Verified models of AFL multi-QEMU fuzzing and its QEMU and S2E parts

This project models, in Dafny 4.11, the most intricate parts of a fuzzer built from AFL and a slice of S2E and
QEMU, and proves properties of them for all inputs, all schedules and all runs.

| file | what it models |
|---|---|
| `Wire.dfy` | big-endian words and flags shared by the migration streams |
| `RamMigration.dfy` | live migration of RAM, down to the bytes on the wire |
| `BlockMigration.dfy` | live migration of disks with asynchronous reads, down to the bytes on the wire |
| `Dispatch.dfy` | the fuzzer's dispatch of tests to several QEMU instances |
| `ForkServer.dfy` | the fork server protocol with persistent mode and timeouts |
| `Kvm.dfy` | the KVM_RUN coroutine and its mutex |
| `BottomHalf.dfy` | QEMU's re-entrant bottom-half polling |
| `Culling.dfy` | corpus scoring and culling |
| `Novelty.dfy` | hit count classification, novelty detection and the map statistic |
| `Tmin.dfy` | the test case minimiser |
| `SkipStages.dfy` | the 8-bit deterministic stages and their duplicate filters |
| `Havoc.dfy` | the havoc stage |
| `Dictionary.dfy` | token printer and dictionary loader |
| `AesSpec.dfy`, `Aes.dfy`, `AesCbc.dfy`, `AesExample.dfy` | AES as FIPS 197 defines it, the table-driven code, CBC, and the worked example of the standard |
| `Bitmap.dfy` | word-based bitmap searches |
| `Hash.dfy` | both variants of the trace hash |

Protocols between processes or threads are transition systems: one event is one step of one participant, and
the theorems quantify over every sequence of events. Code that updates memory is modelled by classes, arrays
and loops, each proved against functions on values whose properties are proved as lemmas. What the fuzzed
program, the guest, the scheduler or a random generator does is an arbitrary parameter.

Hypotheses taken over from the source:

- RAM and disk migration: no stream errors; block names are distinct; RAM block lengths are positive multiples
  of the page size. Device names are shorter than 256 bytes and hold no NUL, and disks are shorter than 2^63
  bytes.
- Disk migration: full (not shared-base) migration, reads complete in the order they were issued, and before
  stage 3 the caller has drained outstanding reads; the final flush is not throttled.
- Culling: entries are rescored with traces of the same hit bytes. Without that the exact condition is
  `TraceFits`, and `StaleTraceRun` shows what then goes wrong.
- Kvm: the signal handler never runs on the vCPU thread; it takes the mutex, which is not recursive, and the signal
  mask is not implemented.
- Minimiser and novelty: the target is deterministic; a trace is what one run left in the map.

Where the code departs from what one would expect, the model follows the code:

- `AES_cbc_encrypt` leaves the decrypted block, not the ciphertext block, in the vector after a partial
  decryption (`SameVectors`).
- During the barrier's drain, novelty is judged on the map of the instance served last
  (`DrainExaminesOtherMap`).
- `__AFL_LOOP(0)` wraps its counter and runs 2^32 times (`RunLoop`).
- A captured text token that begins with NUL makes the whole dictionary file unloadable (`FileRoundTrip`).
- The timeout can signal a pid that was already reaped; `StrayKill` says exactly when, and `StrayKillHappens` gives
  a run.
- Injecting a second interrupt number fails an assertion, or replaces the first one if another request bit is set
  (`InjectionOutcome`).
- Rescoring an entry with other hit bytes can make culling miscount (`StaleTraceRun`).

## Model

| member | source | states |
|---|---|---|
| `RamMigration.Migrate` | s2e-ffuzz/qemu/arch_init.c:267-479 | For every interleaving of guest stores and every rate limit over stages 1, 2 and 3: loading succeeds exactly when the receiver has, for each of the sender's blocks, a block of the same name and length, and otherwise fails with EINVAL and leaves the receiver unchanged; on success every page of the destination equals the source page, no page but those of the sender's blocks is touched, nothing is written past the end of a block, and the source is its initial RAM with all stores of all rounds applied in order |
| `RamMigration.Exchange` | s2e-ffuzz/qemu/arch_init.c:267-352 | One call of the sender whose bytes are loaded: the pair is in step afterwards and only pages of the sender's blocks changed, RAM holds the stores made before each block that was tried, after stage 3 no page is dirty, and a refused block list changes nothing on the receiver |
| `RamMigration.AcceptsMeans` | s2e-ffuzz/qemu/arch_init.c:400-432 | Looking up each announced name and comparing lengths accepts a list exactly if each announced block is among those of the receiver, name and length |
| `RamMigration.StaysInBounds` | s2e-ffuzz/qemu/arch_init.c:354-479 | If the lists match, a receiver that holds pages only inside its blocks still does so afterwards |
| `RamMigration.SendConfined` | s2e-ffuzz/qemu/arch_init.c:354-479 | Loading a page sent by an accepted sender touches no page outside the sender's blocks |
| `RamMigration.RamOfRound` | s2e-ffuzz/qemu/arch_init.c:267-352 | The stores before a call and during it extend the stores of the rounds before |
| `RamMigration.SendKeepsSync` | s2e-ffuzz/qemu/arch_init.c:137-195 | Sending any dirty page keeps the invariant: each page is dirty, logged, or equal on both sides, and the receiver's remembered block is the sender's last block |
| `RamMigration.WritesKeepSync` | s2e-ffuzz/qemu/arch_init.c:267-352 | Any sequence of guest stores keeps the invariant, because each sets its page's dirty bit |
| `RamMigration.SyncKeepsSync` | s2e-ffuzz/qemu/arch_init.c:267-352 | Fetching the kernel's dirty log keeps the invariant |
| `RamMigration.CleanMeansEqual` | s2e-ffuzz/qemu/arch_init.c:267-352 | With nothing dirty and nothing logged, the invariant is equality of all pages |
| `RamMigration.Source.SaveBlock` | s2e-ffuzz/qemu/arch_init.c:137-195 | Returns 0 exactly when no page is dirty; otherwise sends the first dirty page in cyclic order after the last one sent, clears its bit and appends exactly its encoding |
| `RamMigration.Source.PutPage` | s2e-ffuzz/qemu/arch_init.c:137-195 | The bytes written are the encoding of the page's record: one byte of content exactly for a uniform page and all 4096 otherwise, with the block name exactly when the block changed; the total length is stated |
| `RamMigration.Source.Begin` | s2e-ffuzz/qemu/arch_init.c:282-305 | Stage 1 makes every page dirty and announces the block list with its total size |
| `RamMigration.Source.SaveLive` | s2e-ffuzz/qemu/arch_init.c:267-352 | In each stage the bytes written are one section whose records bring any receiver in step to a state that is in step again; before stage 3 every call but possibly the last sends one page; stage 3 ends with nothing dirty |
| `RamMigration.Source.SaveAll` | s2e-ffuzz/qemu/arch_init.c:337-345 | The unlimited flush of stage 3 terminates and leaves nothing dirty |
| `RamMigration.Destination.HostFromStreamOffset` | s2e-ffuzz/qemu/arch_init.c:354-382 | With the continue flag the remembered block is used and nothing is read; without it the name is read, looked up and remembered |
| `RamMigration.Destination.SyncBlockList` | s2e-ffuzz/qemu/arch_init.c:400-432 | The announced block list is accepted exactly when every block is known with the same length |
| `RamMigration.Destination.LoadRecord` | s2e-ffuzz/qemu/arch_init.c:384-479 | From the bytes of any well-formed record the receiver reaches the state that record means, or fails with the error it means, and stops right after it |
| `RamMigration.Destination.Load` | s2e-ffuzz/qemu/arch_init.c:384-479 | A wrong version is refused; the bytes of a section have the meaning of its records; a section whose block list is refused changes nothing |
| `RamMigration.RecordAt` | s2e-ffuzz/qemu/arch_init.c:354-479 | In a section's bytes each record stands right behind the records before it, so the decoder cannot lose its place |
| `RamMigration.HeaderParts` | s2e-ffuzz/qemu/arch_init.c:137-195 | A record header splits back into page address and flags |
| `RamMigration.HeaderWords` | s2e-ffuzz/qemu/arch_init.c:96-101 | The first word of each kind of record, in numbers |
| `Wire.BigEndianDigits` | s2e-ffuzz/qemu/arch_init.c:137-160 | Byte i of a word on the wire is its digit to base 256, the most significant one first |
| `RamMigration.FailureIsFinal` | s2e-ffuzz/qemu/arch_init.c:384-479 | Once loading fails, later records change nothing |
| `RamMigration.RejectedAtOnce` | s2e-ffuzz/qemu/arch_init.c:400-432 | A section that starts with a mismatching block list fails with EINVAL whatever follows |
| `Wire.Be64RoundTrip` | s2e-ffuzz/qemu/arch_init.c:137-160 | A 64-bit word written big-endian reads back as itself |
| `AesSpec.InvSBoxUndoes` | s2e-ffuzz/qemu/aes.c:46-58 | The inverse substitution undoes the substitution on all 256 bytes |
| `AesSpec.SBoxIsAffineOfInverse` | s2e-ffuzz/qemu/aes.c:46-58 | The substitution is the affine map of the inverse in GF(2^8), with 0 as its own inverse (section 5.1.1 of FIPS 197) |
| `AesSpec.ShiftRowsMoves` | s2e-ffuzz/qemu/aes.c:885-1070 | Row r moves r places to the left (section 5.1.2 of FIPS 197) |
| `AesSpec.MixIsProduct` | s2e-ffuzz/qemu/aes.c:46-58 | A mixed column is the product with {03}x^3 + {01}x^2 + {01}x + {02} modulo x^4 + 1 (section 5.1.3 of FIPS 197) |
| `AesSpec.InvMixUndoes` | s2e-ffuzz/qemu/aes.c:46-58 | InvMixColumns undoes MixColumns on every column (section 5.3.3 of FIPS 197) |
| `AesSpec.InvMixLinear` | s2e-ffuzz/qemu/aes.c:832-878 | InvMixColumns distributes over xor, which is why the decryption key may be transformed in advance |
| `AesSpec.DecryptUndoesEncrypt` | s2e-ffuzz/qemu/aes.c:885-1261 | For any number of rounds and any round keys, the inverse cipher undoes the cipher |
| `AesSpec.EquivalentInverse` | s2e-ffuzz/qemu/aes.c:1076-1261 | The equivalent inverse cipher of section 5.3.5 of FIPS 197, run on the reversed and InvMixColumns-transformed schedule, equals the inverse cipher |
| `Aes.ColOfEncWord` | s2e-ffuzz/qemu/aes.c:885-1070 | One T-table word of an encryption round is SubBytes, ShiftRows, MixColumns and AddRoundKey of one column |
| `Aes.ColOfDecWord` | s2e-ffuzz/qemu/aes.c:1076-1255 | One T-table word of a decryption round is a column of the equivalent inverse round |
| `Aes.AesKey.SetEncryptKey` | s2e-ffuzz/qemu/aes.c:731-826 | For 128, 192 and 256 bits the array holds the key expansion of section 5.2 of FIPS 197; other sizes return -2 and change nothing |
| `Aes.AesKey.SetDecryptKey` | s2e-ffuzz/qemu/aes.c:832-878 | The array holds the encryption schedule with its round keys in reverse order and the inner ones InvMixColumns-transformed |
| `Aes.ReverseGroups` | s2e-ffuzz/qemu/aes.c:845-851 | Swapping from both ends reverses the round keys in place |
| `Aes.ExpansionIsUnique` | s2e-ffuzz/qemu/aes.c:731-826 | The recurrence of the key expansion determines the whole schedule |
| `Aes.ExpansionExample` | s2e-ffuzz/qemu/aes.c:731-826 | The first words of the schedule in appendix A.1 of FIPS 197 follow from its key |
| `Aes.Encrypt` | s2e-ffuzz/qemu/aes.c:885-1070 | The round loop with tables computes the cipher of FIPS 197 under the schedule |
| `AesExample.CipherExample` | s2e-ffuzz/qemu/aes.c:885-1070 | The cipher takes the plaintext of appendix B of FIPS 197 to its ciphertext |
| `Aes.Decrypt` | s2e-ffuzz/qemu/aes.c:1076-1261 | The round loop with inverse tables computes the equivalent inverse cipher under the transformed schedule |
| `Aes.DecryptBlockUndoes` | s2e-ffuzz/qemu/aes.c:885-1261 | Under the two schedules of one key, decryption undoes encryption for every block |
| `Aes.RoundTrip` | s2e-ffuzz/qemu/aes.c:731-1261 | Setting both keys from any valid user key, encrypting and decrypting any block returns the block |
| `AesCbc.AesUndoes` | s2e-ffuzz/qemu/aes.c:1265-1314 | The two block ciphers of one key form an inverse pair, as the mode requires |
| `AesCbc.RoundTripCbc` | s2e-ffuzz/qemu/aes.c:1265-1314 | For every length, including a partial last block, decrypting the padded ciphertext with the same vector returns the plaintext |
| `AesCbc.CipherBlock` | s2e-ffuzz/qemu/aes.c:1265-1290 | Each ciphertext block is the cipher of the plaintext block masked by the ciphertext block before it, or by the vector |
| `AesCbc.EncryptChains` | s2e-ffuzz/qemu/aes.c:1265-1290 | For whole blocks, the ciphertext of one call is that of consecutive calls that carry the vector (section 6.2 of NIST SP 800-38A) |
| `AesCbc.EncryptIvChains` | s2e-ffuzz/qemu/aes.c:1265-1290 | The vector left by one call is the one left by the consecutive calls, so any number of calls can be chained |
| `AesCbc.DecryptChains` | s2e-ffuzz/qemu/aes.c:1291-1314 | Decryption chains the same way after whole blocks, in output and in vector |
| `AesCbc.VectorsAgree` | s2e-ffuzz/qemu/aes.c:1265-1314 | After whole blocks, encryption and decryption leave the same vector |
| `AesCbc.VectorsAfterPartial` | s2e-ffuzz/qemu/aes.c:1291-1314 | For every length with a partial last block, encryption leaves the last ciphertext block and decryption the masked block itself, because it stores the decrypted block |
| `AesCbc.SameVectors` | s2e-ffuzz/qemu/aes.c:1265-1314 | For every length, both directions leave the same vector exactly if the message is whole blocks or the cipher fixes the last masked block |
| `AesCbc.PartialVectorsDiffer` | s2e-ffuzz/qemu/aes.c:1291-1314 | A concrete invertible cipher and message after which the two vectors differ |
| `AesCbc.CbcCrypt` | s2e-ffuzz/qemu/aes.c:1265-1314 | In both directions, also in place, output and vector are those of the mode |
| `AesCbc.RoundTripBuffers` | s2e-ffuzz/qemu/aes.c:731-1314 | Setting both keys from any valid user key, encrypting any number of bytes and decrypting the result from the same vector returns the plaintext, also when all buffers are one |
| `Culling.MinimizeBits` | afl-ffuzz/afl-fuzz.c:1276-1287 | The packed map marks exactly the bytes the trace hits |
| `Culling.RemoveBits` | afl-ffuzz/afl-fuzz.c:1380-1386 | Clearing the winner's packed trace removes exactly the bytes it hits |
| `Culling.Corpus.UpdateBitmapScore` | afl-ffuzz/afl-fuzz.c:1300-1342 | The scored entry takes exactly the slots it hits and wins by time times length; reference counts stay exact and traces are kept exactly while counted; the trace is recorded anew only on the stated condition; winners own their bytes afterwards if and only if the trace fits |
| `Culling.Rescored` | afl-ffuzz/afl-fuzz.c:1300-1342 | After scoring, every winner's recorded trace hits the slots it holds exactly when the condition on the trace holds |
| `Culling.SameHitsFit` | afl-ffuzz/afl-fuzz.c:1300-1342 | The condition holds for a new entry and for one rescored with the same hit bytes |
| `Culling.StaleTraceRun` | afl-ffuzz/afl-fuzz.c:1300-1401 | A concrete run: an entry that won bytes 0 and 1 is rescored with a trace of byte 2 alone; culling then picks it twice, counts two favored entries where there is one, and leaves byte 2 uncovered |
| `Culling.Corpus.AddToQueue` | afl-ffuzz/afl-fuzz.c:827-859 | A new entry keeps all counters exact |
| `Culling.Corpus.MarkFuzzed` | afl-ffuzz/afl-fuzz.c:7511-7515 | Marking an entry fuzzed keeps both pending counters exact |
| `Culling.Corpus.CullQueue` | afl-ffuzz/afl-fuzz.c:1351-1401 | In any state, exactly the winners of bytes that no earlier pick hits are picked, in order, and counted. If winners own their bytes, every byte with a winner is hit by a favored entry, no entry is picked twice, and the favored counters equal the true counts |
| `Culling.DoneCull` | afl-ffuzz/afl-fuzz.c:1372-1392 | Where winners own their bytes, the picks are of different entries and form a cover |
| `Culling.Run` | afl-ffuzz/afl-fuzz.c:827-1401 | Through any sequence of adds, scorings, culls and fuzzed-markings in which entries keep their hit bytes, all counts stay exact and every winner owns its byte |
| `Culling.WinsByProduct` | afl-ffuzz/afl-fuzz.c:1300-1316 | A slot is won exactly if the byte is set and the slot is empty or execution time times length is not above that of its holder |
| `Dispatch.StepOk` | afl-ffuzz/afl-fuzz.c:2376-2849 | Every step of the fuzzer and of any instance keeps the invariant, and nothing it dereferences is missing |
| `Dispatch.DispatchIsSafe` | afl-ffuzz/afl-fuzz.c:2736-2849 | In every run, a test is handed only to an instance that is ready and idle, a map is cleared only after its test was analysed, and an instance never sets a ready byte that is already set |
| `Dispatch.AnalysisIsExact` | afl-ffuzz/afl-fuzz.c:2693-2703 | Each analysis takes a test never analysed before while the instance's map is the complete trace of that test; its novelty is judged on that map exactly if the barrier is not draining or drains the instance served last, and a drain takes the head of the FIFO |
| `Dispatch.NothingLost` | afl-ffuzz/afl-fuzz.c:2376-2415 | In every state executions counted plus unanalysed tests equal tests dispatched, and each test is analysed once or in exactly one buffer |
| `Dispatch.RoundRobinServesAll` | afl-ffuzz/afl-fuzz.c:2736-2849 | After a barrier the instances get the next tests in the order 0, 1, 2 and so on, once each, and no FIFO record is taken before the last of them has its test; afterwards the instance whose record was taken gets the test |
| `Dispatch.RecordsInOrder` | afl-ffuzz/afl-fuzz.c:2736-2849 | FIFO records are taken in the order in which instances announced themselves, each once |
| `Dispatch.NoInstanceForgotten` | afl-ffuzz/afl-fuzz.c:2736-2849 | When instances post the record before the ready byte, in every state each instance is booting, has a test, or is one the fuzzer will come to |
| `Dispatch.BarrierAnalysesAll` | afl-ffuzz/afl-parrel-qemu.h:59-85 | When instances post the FIFO record before the ready byte, nothing is unanalysed after the barrier |
| `Dispatch.ReadyFirstLeavesTests` | s2e-ffuzz/qemu/s2e/Plugins/AFLControllers/FuzzyS2E.cpp:526-558 | With the opposite order a reachable state passes the barrier with an unanalysed test |
| `Dispatch.DrainExaminesOtherMap` | afl-ffuzz/afl-fuzz.c:929-945 | While draining, a reachable state judges one instance's test on another instance's map |
| `ForkServer.StepInv` | afl-ffuzz/llvm_mode/afl-llvm-rt.o.c:85-161 | Every step of fuzzer, server, child and timeout keeps the lockstep invariant |
| `ForkServer.ForkServerIsSafe` | afl-ffuzz/llvm_mode/afl-llvm-rt.o.c:85-161 | In every run, with the timeout at any moment: no reaped child is waited for, no fork happens while a child is unreaped, SIGCONT goes only to a stopped living child, and between runs each request has been answered by one pid and one status with the pipes empty |
| `ForkServer.CrashIsReal` | afl-ffuzz/afl-fuzz.c:2546-2618 | A run is reported as a crash exactly if the program died by its own signal and no timeout struck, though the wait status does not tell the fuzzer's SIGKILL apart |
| `ForkServer.VerdictIsRight` | afl-ffuzz/afl-fuzz.c:2546-2618 | Told from the events of the run alone: a hang is reported exactly if the timeout struck, a crash exactly if it did not and the child died of its own signal, and nothing exactly in the other cases |
| `ForkServer.StrayKill` | afl-ffuzz/afl-fuzz.c:7700-7714 | The timeout's SIGKILL hits an already reaped pid exactly if the server has seen the child die and the fuzzer has not yet cleared the pid |
| `ForkServer.StrayKillHappens` | afl-ffuzz/afl-fuzz.c:7700-7714 | A run from the start that reaches such a moment |
| `ForkServer.NoDeadlock` | afl-ffuzz/afl-fuzz.c:2520-2571 | In every state some step other than the timeout is possible |
| `ForkServer.RunsEnd` | afl-ffuzz/afl-fuzz.c:2520-2618 | Between two requests at most 38 steps happen, whatever the schedule, and when none is left the fuzzer is ready again |
| `ForkServer.PersistentLoop.Again` | afl-ffuzz/llvm_mode/afl-llvm-rt.o.c:166-210 | One evaluation of the loop condition, with the 32-bit counter wrapping |
| `ForkServer.RunLoop` | afl-ffuzz/llvm_mode/afl-llvm-rt.o.c:166-210 | A persistent child runs its loop body exactly n times for n of at least one, 2^32 times for zero, stopping in between; without persistent mode once |
| `BlockMigration.Migrate` | s2e-ffuzz/qemu/block-migration.c:539-701 | For any guest stores, any order of sector reads within outstanding requests, any rate limits and any number of rounds, through the bytes of the stream: once stage 2 reported completion and stage 3 ran, every disk of the destination equals the source disk, which is the initial one with all stores applied; and if the guest stores nothing, reads get done and the limits leave room for a block, completion is reported within twice as many rounds as there are chunks, and two more |
| `BlockMigration.OneRound` | s2e-ffuzz/qemu/block-migration.c:563-600 | What happens before a call of stage 2, the call and its loading leave the pair synchronised; a round without guest stores and with room leaves less to do unless nothing is left to read |
| `BlockMigration.AllRounds` | s2e-ffuzz/qemu/block-migration.c:563-600 | All rounds of stage 2 keep the pair synchronised, and more quiet rounds than there was work make the last one report completion |
| `BlockMigration.SubmitKeepsSync` | s2e-ffuzz/qemu/block-migration.c:206-260 | Issuing a read and clearing the dirty bit keeps the invariant: once all written, queued and outstanding blocks have arrived, the destination agrees on every chunk that was passed and is not dirty |
| `BlockMigration.RefreshKeepsSync` | s2e-ffuzz/qemu/block-migration.c:206-260 | A read may see each sector at any moment between submission and completion without breaking the invariant |
| `BlockMigration.WriteKeepsSync` | s2e-ffuzz/qemu/block-migration.c:262-270 | A guest store keeps the invariant, because it marks its chunk dirty |
| `BlockMigration.LoadKeepsSync` | s2e-ffuzz/qemu/block-migration.c:626-701 | Loading what was written keeps the invariant for what is still pending |
| `BlockMigration.ReplayRefreshed` | s2e-ffuzz/qemu/block-migration.c:626-701 | Changing one sector of one pending block shows on the final disks at most as that sector's new value |
| `BlockMigration.CleanMeansEqual` | s2e-ffuzz/qemu/block-migration.c:602-616 | Bulk phase over, nothing dirty and nothing pending make the disks equal |
| `BlockMigration.Sender.CompleteRead` | s2e-ffuzz/qemu/block-migration.c:187-204 | A completed read moves to the queue's tail, its in-flight bit is cleared, and outstanding, queued and transferred blocks still sum to the reads issued |
| `BlockMigration.Sender.DrainAll` | s2e-ffuzz/qemu/block-migration.c:374-377 | Draining leaves no read outstanding and changes no dirty bit |
| `BlockMigration.Sender.Flush` | s2e-ffuzz/qemu/block-migration.c:447-477 | Blocks leave the queue in order up to the rate limit, and their sum with the others is conserved |
| `BlockMigration.Sender.SaveDeviceBulk` | s2e-ffuzz/qemu/block-migration.c:206-260 | The next chunk is submitted and the cursor advances; the end is reported with the last chunk |
| `BlockMigration.Sender.SaveBulkedBlock` | s2e-ffuzz/qemu/block-migration.c:319-354 | One chunk of the first unfinished device, or nothing and all devices finished |
| `BlockMigration.Sender.SaveDeviceDirty` | s2e-ffuzz/qemu/block-migration.c:365-430 | From the cursor on, exactly one dirty chunk is read again or sent, with no older read of that chunk still outstanding, or the end is reported and nothing passed is dirty |
| `BlockMigration.Sender.DrainIfInFlight` | s2e-ffuzz/qemu/block-migration.c:365-430 | A chunk with an outstanding read is not read again before all outstanding reads are done; otherwise nothing changes |
| `BlockMigration.Sender.SaveDirtyBlock` | s2e-ffuzz/qemu/block-migration.c:432-445 | One dirty chunk fewer, or no device has any |
| `BlockMigration.Sender.Fill` | s2e-ffuzz/qemu/block-migration.c:574-592 | The rate-controlled loop of stage 2 ends only when the limit is reached or nothing is left to read, issues no read beyond the limit, keeps the invariant, and leaves less to do whenever there was room |
| `BlockMigration.Sender.Iterate` | s2e-ffuzz/qemu/block-migration.c:539-624 | Stage 2 reports completion exactly after the bulk phase and with nothing dirty, or little enough by the estimate; with room and all reads done it leaves less to do unless nothing is left to read |
| `BlockMigration.Sender.Finish` | s2e-ffuzz/qemu/block-migration.c:602-616 | Stage 3 terminates with nothing dirty, queued or outstanding |
| `BlockMigration.Receiver.Load` | s2e-ffuzz/qemu/block-migration.c:626-701 | The bytes of a section load exactly if each block names a known device that is not empty and does not start past its end, and then leave the records replayed |
| `BlockMigration.Receiver.LoadRecord` | s2e-ffuzz/qemu/block-migration.c:638-698 | From the bytes of any record the receiver reaches the state that record means or refuses it, stops right behind it, and ends on the end marker alone |
| `BlockMigration.FlagsOf` | s2e-ffuzz/qemu/block-migration.c:639-642 | A header word splits back into sector and flags, even if the word was cut to 64 bits |
| `BlockMigration.HeaderWords` | s2e-ffuzz/qemu/block-migration.c:87-101 | The first word of each kind of record, in numbers |
| `BlockMigration.CutFlat` | s2e-ffuzz/qemu/block-migration.c:87-101 | The sectors of a block come back from its bytes |
| `Tmin.TestCase.Minimize` | afl-ffuzz/afl-tmin.c:388-607 | Terminates for every file and deterministic oracle; the oracle accepts the result, which comes from the original by deletions and '0' bytes alone, no single byte of it can be deleted, and it is exactly what block normalisation and then passes of the three other stages, repeated until one changes nothing, leave of the original |
| `Tmin.TestCase.NormalizeBlocks` | afl-ffuzz/afl-tmin.c:399-442 | Keeps length and acceptance; each block in turn is set to '0' exactly where the oracle allows, with the block length stated; any change lowers length plus non-'0' bytes, and no change means every block is '0' already or must not become so |
| `Tmin.TestCase.DeleteBlocks` | afl-ffuzz/afl-tmin.c:458-508 | Keeps acceptance and has the result of trying every block in turn, in spite of the skipped equal blocks; no deletion means no block at a multiple of the length can be deleted |
| `Tmin.TestCase.DeleteAll` | afl-ffuzz/afl-tmin.c:450-517 | The result of deleting with each block length in turn, halved from a sixteenth of the file down to one byte; no change means one-minimal |
| `Tmin.TestCase.MinimizeAlphabet` | afl-ffuzz/afl-tmin.c:524-571 | Each symbol in turn is replaced throughout exactly where the oracle allows; each replacement really changes the file and lowers the measure; no change means no symbol can be replaced throughout |
| `Tmin.TestCase.MinimizeCharacters` | afl-ffuzz/afl-tmin.c:573-607 | Keeps acceptance; each byte in turn is replaced by '0' exactly where the oracle allows; no change means no byte can be replaced |
| `Tmin.EqualNeighbours` | afl-ffuzz/afl-tmin.c:475-486 | Deleting either of two equal adjacent blocks gives the same file |
| `Tmin.SimplerTrans` | afl-ffuzz/afl-tmin.c:388-607 | Simplification by deletions and '0' bytes composes |
| `Tmin.NextP2` | afl-ffuzz/afl-tmin.c:377-383 | The least power of two not below the argument |
| `SkipStages.Deterministic` | afl-ffuzz/afl-fuzz.c:5720-6530 | Of the bit flips and the 8-bit stages, which are all that is modelled of these lines, the executed files are exactly the listed ones, in order, and the buffer equals the input after each stage; at every marked byte, every value within arithmetic reach and every interesting value gives the input itself or an executed file; bytes whose inversion changed the path are marked; marked are exactly the groups that `WalkingBytes` marks |
| `SkipStages.NothingSkippedIsLost` | afl-ffuzz/afl-fuzz.c:6165-6530 | Whatever the two filters skip was executed by a flip or arithmetic step or is the input |
| `SkipStages.FlipWasTried` | afl-ffuzz/afl-fuzz.c:5294-5318 | A change that the flip filter recognises was executed by one of the walking flips |
| `SkipStages.FilterIsExact` | afl-ffuzz/afl-fuzz.c:5294-5318 | A walking flip that changes one byte alone makes a change the filter recognises |
| `SkipStages.PatternOfByte` | afl-ffuzz/afl-fuzz.c:5294-5318 | On bytes the filter accepts exactly windows of one, two, four or all eight bits |
| `SkipStages.CouldBeBitflip` | afl-ffuzz/afl-fuzz.c:5294-5318 | The shifting loop decides the pattern |
| `SkipStages.FlipTwice` | afl-ffuzz/afl-fuzz.c:5714-5905 | Flipping the same bits again restores the file, also across byte boundaries |
| `SkipStages.FlipWindow` | afl-ffuzz/afl-fuzz.c:5714-5718 | Flips within one byte, counted from its most significant bit, are an xor with the window |
| `SkipStages.WalkingBits` | afl-ffuzz/afl-fuzz.c:5720-5905 | Executes exactly the flips of every window, in order, and restores the buffer |
| `SkipStages.WalkingBytes` | afl-ffuzz/afl-fuzz.c:5924-6025 | Executes exactly the byte inversions, in order, restores the buffer, and marks exactly the groups of eight with an effective byte, the first and the last group, or all groups if the marked ones exceed the 90 per cent limit |
| `SkipStages.Arith8` | afl-ffuzz/afl-fuzz.c:6165-6219 | Executes, at marked bytes, exactly the values within 35 steps that are no flip, in order; the buffer is restored |
| `SkipStages.Interest8` | afl-ffuzz/afl-fuzz.c:6493-6530 | Executes, at marked bytes, exactly the interesting values that are no flip and no arithmetic, in order; the buffer is restored |
| `SkipStages.InterestFilesAre` | afl-ffuzz/afl-fuzz.c:6493-6530 | The files of this stage are, as a set, the interesting values that neither filter recognises |
| `SkipStages.ArithFilesAre` | afl-ffuzz/afl-fuzz.c:6165-6219 | The files of the arithmetic stage are, as a set, the values within reach that the flip filter does not recognise |
| `SkipStages.NothingRunTwice` | afl-ffuzz/afl-fuzz.c:6493-6530 | No file of the last stage is a walking flip or a file of the arithmetic stage at any byte |
| `SkipStages.NearIsArith` | afl-ffuzz/afl-fuzz.c:5324-5350 | The values the arithmetic stage tries are exactly those its filter recognises, modulo 256 |
| `Novelty.Coverage.Examine` | afl-ffuzz/afl-fuzz.c:929-1009 | Over any sequence of traces: 2 exactly if some edge was never hit before, at least 1 exactly if some edge and hit count bucket is new; so at most eight times the map size calls report something new |
| `Novelty.HasNewBits` | afl-ffuzz/afl-fuzz.c:929-1009 | The word loop finds what a byte-by-byte comparison finds and clears exactly the bits of the trace |
| `Novelty.ClassifyCounts` | afl-ffuzz/afl-fuzz.c:1178-1258 | The 16-bit table lookups replace every hit count by its bucket |
| `Novelty.BitMeansUnseen` | afl-ffuzz/afl-fuzz.c:929-1009 | A bit is left in the virgin byte exactly if no earlier trace hit that edge in that bucket |
| `Novelty.PristineMeansUnhit` | afl-ffuzz/afl-fuzz.c:929-1009 | A virgin byte is untouched exactly if no earlier trace hit that edge |
| `Novelty.PopulationCount` | afl-ffuzz/afl-fuzz.c:1033-1035 | The folding and multiplying steps count the bits of a 32-bit word |
| `Novelty.CountBits` | afl-ffuzz/afl-fuzz.c:1015-1041 | The loop counts the bits of the whole map modulo 2^32, which is the true count for maps below 2^32 bits |
| `Novelty.BitsAndPairs` | afl-ffuzz/afl-fuzz.c:4498-4498 | Eight times the map size minus the bits left in the virgin map is the number of edge and bucket pairs seen |
| `Novelty.PairsSeen` | afl-ffuzz/afl-fuzz.c:4498-4498 | On a live coverage map, the statistic computed with the bit counter is the number of edge and bucket pairs seen in all traces so far |
| `Novelty.SameBucket` | afl-ffuzz/afl-fuzz.c:1178-1190 | Two hit counts fall into one class exactly if they are equal or lie in one of the ranges 4-7, 8-15, 16-31, 32-127 and 128-255, and larger counts never get a smaller class |
| `BottomHalf.Context.Poll` | s2e-ffuzz/qemu/async.c:55-92 | For any callbacks that create, schedule, cancel, delete or poll again: the journal of the poll is exactly that of visiting the bottom halves newest first and running the callback of each that is due with all it does, and the flags are what the journal makes of them; no freed node is followed, every bottom half due at the start is fired, cancelled or deleted during the pass, none fires after it was deleted, the result tells whether this pass fired a non-idle one, and after the outermost poll no deleted node is left |
| `BottomHalf.Context.Pass` | s2e-ffuzz/qemu/async.c:63-73 | While the list is walked, nested activity only adds nodes in front, so the saved pointer stays valid and each node of the old list is visited once; the callbacks of those due run, in order |
| `BottomHalf.Context.Visit` | s2e-ffuzz/qemu/async.c:63-73 | A node is fired exactly if it is scheduled and not deleted when its turn comes |
| `BottomHalf.Context.Fire` | s2e-ffuzz/qemu/async.c:66-71 | The flags are cleared first, then the whole callback runs; it counts as progress exactly if it was not idle |
| `BottomHalf.QuietPoll` | s2e-ffuzz/qemu/async.c:55-92 | If one bottom half is due and callbacks do nothing, a poll fires that one and no other |
| `BottomHalf.ScheduleAndPoll` | s2e-ffuzz/qemu/async.c:55-110 | If nothing is due, scheduling a bottom half makes the next poll report progress, and scheduling it as idle does not |
| `BottomHalf.Context.Sweep` | s2e-ffuzz/qemu/async.c:77-90 | Exactly the deleted nodes are unlinked and freed, the others keep their flags |
| `BottomHalf.Context.New` | s2e-ffuzz/qemu/async.c:44-53 | A new node heads the list and nothing else changes |
| `BottomHalf.Context.SetScheduled` | s2e-ffuzz/qemu/async.c:94-110 | An unscheduled node is scheduled with the given idleness; a scheduled one is left alone |
| `BottomHalf.Context.Unschedule` | s2e-ffuzz/qemu/async.c:112-115 | Only the scheduled flag is cleared |
| `BottomHalf.Context.MarkDeleted` | s2e-ffuzz/qemu/async.c:117-121 | The node is marked, not freed |
| `BottomHalf.ExtendsTrans` | s2e-ffuzz/qemu/async.c:55-92 | What activity keeps composes: events only grow, while a poll runs the list keeps its tail, and what was due is still due or was touched |
| `BottomHalf.Unlink` | s2e-ffuzz/qemu/async.c:80-84 | Redirecting the previous node's pointer removes exactly one node from the list |
| `Bitmap.FindNextZeroArea` | s2e-ffuzz/qemu/bitmap.c:214-237 | Terminates; for at least one bit, the least aligned index from the start on whose area is clear and fits, or a value above the size exactly if none exists; the result never exceeds the sum of size, mask and count |
| `Bitmap.FindNextBit` | s2e-ffuzz/qemu/bitops.c:21-64 | The least set bit from the offset on, or the size |
| `Bitmap.FindNextZeroBit` | s2e-ffuzz/qemu/bitops.c:70-113 | The least clear bit from the offset on, or the size |
| `Bitmap.FindLastBit` | s2e-ffuzz/qemu/bitops.c:115-142 | The greatest set bit below the size, or the size if there is none |
| `Bitmap.FindFirstSet` | s2e-ffuzz/qemu/bitops.h:31-61 | The binary search returns the lowest set bit |
| `Bitmap.FindLastSet` | s2e-ffuzz/qemu/bitops.h:69-99 | The binary search returns the highest set bit |
| `Bitmap.Fill` | s2e-ffuzz/qemu/bitmap.c:160-198 | Exactly the requested bits are set or cleared |
| `Bitmap.AlignUpIsLeast` | s2e-ffuzz/qemu/bitmap.c:200-200 | Rounding up gives the least multiple not below the index |
| `Bitmap.AlignMask` | s2e-ffuzz/qemu/bitmap.c:200-200 | On the bits of words, adding a mask of ones and clearing its bits is rounding up to the power of two above the mask |
| `Hash.NoCollision32` | afl-ffuzz/hash.h:71-100 | Two buffers of equal length that differ in exactly one 32-bit word never have the same hash |
| `Hash.NoCollision64` | afl-ffuzz/hash.h:36-65 | The 64-bit state before truncation has the same property per 64-bit word |
| `Hash.WordFromHash32` | afl-ffuzz/hash.h:71-100 | Any one word is determined, by an explicit inverse, by the hash and the other words |
| `Hash.WordFromHash64` | afl-ffuzz/hash.h:36-65 | The same for the 64-bit state |
| `Hash.StepBack32` | afl-ffuzz/hash.h:78-90 | One turn of the loop is invertible in the state and in the word |
| `Hash.StepBack64` | afl-ffuzz/hash.h:43-55 | One turn of the loop is invertible in the state and in the word |
| `Hash.UnfinishUndoes32` | afl-ffuzz/hash.h:92-98 | The final avalanche is undone step by step |
| `Hash.UnfinishUndoes64` | afl-ffuzz/hash.h:57-63 | The final avalanche is undone step by step |
| `Hash.Hash32` | afl-ffuzz/hash.h:71-100 | The loop computes the fold of the step over the words, then the avalanche |
| `Hash.Hash64` | afl-ffuzz/hash.h:36-65 | The loop computes the fold of the step over the words, then the avalanche |
| `Hash.Example32` | afl-ffuzz/hash.h:71-100 | The hash of two words under the seed of the fuzzer, in numbers |
| `Hash.Example64` | afl-ffuzz/hash.h:36-65 | The same for the 64-bit variant |
| `Dictionary.FileRoundTrip` | afl-ffuzz/afl-fuzz.c:1651-1765 | Loading a dump of any captured tokens gives exactly their printed bytes in order, if none is a text token that begins with NUL; if one is, the loader refuses the file |
| `Dictionary.LineRoundTrip` | afl-ffuzz/libtokencap/libtokencap.so.c:99-134 | A printed line reads back as the bytes printed, and an empty one is refused |
| `Dictionary.UnescapeBody` | afl-ffuzz/afl-fuzz.c:1713-1755 | Escaping and unescaping are inverse for all byte strings |
| `Dictionary.KeywordFits` | afl-ffuzz/afl-fuzz.c:1713-1755 | For any line the keyword fits the space allocated for it |
| `Dictionary.Dump` | afl-ffuzz/libtokencap/libtokencap.so.c:99-134 | The printer's buffer never overflows and holds the escaped bytes up to the first NUL in text mode |
| `Dictionary.ParseLine` | afl-ffuzz/afl-fuzz.c:1651-1765 | The pointer loops compute the line's entry: skipped, a keyword, or one of six faults |
| `Dictionary.LoadFile` | afl-ffuzz/afl-fuzz.c:1651-1765 | The loop over lines computes the keywords in order or the first fault |
| `Dictionary.LabelledLine` | afl-ffuzz/afl-fuzz.c:1651-1765 | A line with a label and a level reads as the bytes between its quotes if the level is not above the one asked for, and is skipped otherwise |
| `Dictionary.EscapeMeans` | afl-ffuzz/libtokencap/libtokencap.so.c:99-134 | Exactly the printable characters other than quote and backslash are printed as they are |
| `Dictionary.LineExample` | afl-ffuzz/libtokencap/libtokencap.so.c:99-134 | One printed line, byte for byte |
| `Kvm.KvmRunIsSafe` | s2e-ffuzz/libs2e/s2e-kvm-interface.c:1140-1320 | Over every interleaving with the timer and signal threads and for every caller: guest code runs only with the mutex held, the thread never waits for a mutex it holds, timers never run while an I/O instruction is suspended, the mutex is released and the exit reason set whenever KVM_RUN returns, and of the interrupt numbers stored only the last can be pending |
| `Kvm.StepInv` | s2e-ffuzz/libs2e/s2e-kvm-interface.c:76-99 | Every step of the three threads keeps the lock, exit reason and interrupt invariants |
| `Kvm.NeverStuck` | s2e-ffuzz/libs2e/s2e-kvm-interface.c:1213-1283 | The vCPU thread can go on whenever the other threads have let go of the mutex, and they can |
| `Kvm.InjectionOutcome` | s2e-ffuzz/libs2e/s2e-kvm-interface.c:1302-1320 | In every run an injection fails the assertion exactly if the request is the hard bit alone, overwrites exactly if a number is pending and the request is anything else, and does neither if the flag was set and nothing was injected since the last run |
| `Kvm.FatesAreFinal` | s2e-ffuzz/libs2e/s2e-kvm-interface.c:1302-1320 | No number is delivered twice or after it was overwritten; only taking an interrupt delivers and only an injection overwrites |
| `Kvm.DisciplinedCallerIsSafe` | s2e-ffuzz/libs2e/s2e-kvm-interface.c:1302-1320 | A caller that injects only under the flag and once until the next run never fails the assertion and loses no number: all are delivered in order |
| `Kvm.SecondInjectionAborts` | s2e-ffuzz/libs2e/s2e-kvm-interface.c:1302-1320 | A reachable state in which a second injection failed the assertion |
| `Kvm.SecondInjectionOverwrites` | s2e-ffuzz/libs2e/s2e-kvm-interface.c:1302-1320 | A reachable state in which a second injection replaced the first number, because another request bit was set |
| `Kvm.ExitReasonIsRight` | s2e-ffuzz/libs2e/s2e-kvm-interface.c:1213-1283 | Told from the events of a run alone: the reason is the suspended I/O if there is one, otherwise a halt, otherwise an open window if wanted and the caller may inject, otherwise an interruption; and guest code starts with the hard request set exactly if a number is pending |
| `Havoc.BlockLen` | afl-ffuzz/afl-fuzz.c:5186-5215 | A block length lies between one and the limit |
| `Havoc.CalculateScore` | afl-ffuzz/afl-fuzz.c:5220-5284 | The score is the one composed of speed, size, handicap and depth, lies in 2..1600, and the handicap is used up by at most four |
| `Havoc.BetterScoresHigher` | afl-ffuzz/afl-fuzz.c:5220-5284 | An entry that is no slower, covers no less, came no earlier and lies no shallower never scores less |
| `Havoc.Edited` | afl-ffuzz/afl-fuzz.c:6983-7350 | Any edit leaves between one byte and the size limit |
| `Havoc.Buffer.Apply` | afl-ffuzz/afl-fuzz.c:6983-7350 | Each edit stays inside the buffer, in place or in a new one, and leaves exactly the file specified, down to the values written |
| `Havoc.Buffer.Stack` | afl-ffuzz/afl-fuzz.c:6983-7350 | A stack of edits leaves the input with all edits applied in order |
| `Havoc.WordOfBytes` | afl-ffuzz/afl-fuzz.c:7001-7157 | Words written in either byte order read back as themselves, modulo their width |
| `Havoc.NeverANoOp` | afl-ffuzz/afl-fuzz.c:6983-7166 | Bit flips, additions and subtractions that fit, and exclusive ors always change the file |
| `Havoc.Buffer.Restore` | afl-ffuzz/afl-fuzz.c:7366-7371 | The buffer is the input again, reallocated only if it was left shorter |
| `Havoc.Buffer.Iteration` | afl-ffuzz/afl-fuzz.c:6983-7371 | The file run is the input with the stack of edits applied, and unless the run is the last the buffer is the input again |
| `Havoc.PlanBound` | afl-ffuzz/afl-fuzz.c:6946-7387 | However often the length of a round doubles, it stays between 16 and 32768 |
| `Havoc.Round` | afl-ffuzz/afl-fuzz.c:6946-7387 | Every file run is the input with the edits of its iteration, of at least one byte and within the size limit; the round goes on exactly while fewer files were run than planned, where each find doubles the plan within bounds; unless abandoned it leaves the input in the buffer |
| `Havoc.FlipMeans` | afl-ffuzz/afl-fuzz.c:6994-7000 | A flip inverts one bit, counted from the most significant of its byte, and nothing else |
| `Havoc.InterestMeans` | afl-ffuzz/afl-fuzz.c:7001-7047 | The value read back at the chosen place, in the chosen byte order, is the interesting one, and nothing else changed |
| `Havoc.ArithMeans` | afl-ffuzz/afl-fuzz.c:7048-7157 | The word read back is the old one plus or minus a number from 1 to 35, modulo its width, and nothing else changed |
| `Havoc.DeleteMeans` | afl-ffuzz/afl-fuzz.c:7167-7191 | One block that is not the whole file is left out |
| `Havoc.CloneMeans` | afl-ffuzz/afl-fuzz.c:7192-7230 | One block is inserted that stands in the file already or repeats one byte |
| `Havoc.OverwriteMeans` | afl-ffuzz/afl-fuzz.c:7231-7256 | One block is replaced by one of the same length that stands in the file already or repeats one byte |
| `Havoc.BlockLenReaches` | afl-ffuzz/afl-fuzz.c:5186-5215 | The block lengths that can come out, exactly, for each size class and limit |
| `Havoc.ScoreLandmarks` | afl-ffuzz/afl-fuzz.c:5220-5284 | An average entry scores 100; 2 and 1600 are reached |

## Left out

- RamMigration.Source.SaveLive: does not model the bandwidth estimate and the return value of stage 2, because the theorem holds for any number of rounds.
- RamMigration.Destination.Load: does not say what happens to bytes that are no section; a short read is an error at once instead of zeros with an error flag.
- RAM migration: the sorting of the block list (the theorem holds for any order), `madvise`, and the
  symbolic-execution variant.
- BlockMigration.Receiver.Load: does not say what happens to bytes that are no section.
- BlockMigration.Sender.Iterate: takes the comparison of the estimated time with the allowed downtime as an input, because it depends on a clock.
- BlockMigration.Sender.Report: does not model the meaning of the percentage, because progress records change nothing on the receiver.
- Disk migration: error paths, shared-base mode, a throttled final flush and reads completing out of order.
- AES: the ten tables are taken to hold what the formulas in the source's comments say; null pointers and the
  unrolled loop variant.
- Culling: wrap-around of the 64-bit product of time and length, and the marker files for redundant entries.
- Dispatch: file contents, crash handling, and the attribution of stages and queue entries.
- Fork server: the initial handshake, the mode without a fork server, exit codes of sanitizers, and user abort.
- Kvm: what guest instructions compute, the data of I/O exits, and debug builds.
- Novelty: the 32-bit build's loops and the crash and hang maps, which differ only in the map used.
- Tmin.TestCase.Minimize: does not claim that no byte can still be replaced by '0', because the last pass may end before that stage runs again.
- SkipStages.Deterministic: leaves out the 16-bit and 32-bit stages, where the filters are only heuristics, and the dictionary stages; they run between the modelled ones on the same buffer.
- Havoc.CalculateScore: computes its fractions with real numbers, not doubles.
- Havoc.Buffer.Apply: takes what the random generator gives as parameters of the edit.
- Bitmap.FindNextZeroArea: does not model an index that wraps, which needs size, mask and count to exceed a word together.
- Bottom halves: `qemu_bh_update_timeout` and the wake-up of the CPU; a callback acting on a node that was already
  freed is outside the model.
- Dictionary.ParseLine: `atoi` does not overflow.
- Status screens, file plumbing, the assembler wrapper and compiler drivers, allocation checkers, and everything
  else of the repository, which has little logic of its own to state laws about.
