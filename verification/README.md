# Verified models of the algorithms in systemish

The repository collects systems experiments. Several of its files hold real algorithms: a fast,
concurrent or stateful form beside a simple meaning it must keep. This project models those
algorithms in Dafny and proves that they do.

| component | files | what is proved |
|---|---|---|
| bounded multi-producer multi-consumer queue | `MpmcQueue.dfy`, `MpmcCalls.dfy`, `MpmcSolo.dfy`, `MpmcProgress.dfy` | a step relation over any number of threads; every interleaving refines a bounded FIFO; what whole calls return, among others and alone; lock freedom |
| asynchronous logger on that queue | `AsyncLogger.dfy`, `AsyncCalls.dfy`, `AsyncFlush.dfy` | ticket order, no call lost, complete exit, what `flush(true)` waits for and what a flush covers |
| DFC multi-pattern matcher | `DfcPattern.dfy`, `DfcTable.dfy`, `DfcCompile.dfy`, `DfcRecursive.dfy`, `DfcSearch.dfy`, `DfcEngine.dfy` | filters and hashed tables find exactly what naive search finds, and when they find more |
| PCG generators | `Modular.dfy`, `PcgLcg.dfy`, `PcgOutput.dfy`, `PcgNumbers.dfy`, `PcgSampling.dfy` | jump-ahead, distance, inverting the output permutation, unbiased sampling |
| 128-bit emulation and decimal text | `PcgUint128.dfy`, `Decimal.dfy`, `PcgDecimal.dfy` | arithmetic modulo 2^128, division, printing and parsing |
| batched goto machine | `GotoBatch.dfy` | the hand-compiled scheduler means the sequential loop |
| hugepage allocator | `HugeAlloc.dfy` | disjointness, placement, conservation of bytes |
| xxHash | `XxStream.dfy`, `XxHash.dfy`, `XxLaws.dfy`, `XxPermutes.dfy`, `XxXor.dfy`, `XxReference.dfy`, `XxVectors.dfy` | streaming equals one-shot for every split; the hashes are a plain-arithmetic definition; published values |
| rte_memcpy | `RteMemcpy.dfy` | exactly the n bytes |
| rotating file sink | `RotatingSink.dfy` | the files are the newest parts of the history, cut by the size rule |

`Bits.dfy` holds powers of two and the bitwise operators, `Common.dfy` the types and predicates that
several components share.

## Modelling decisions

- Concurrency is a state machine. Each atomic load, store and compare-and-swap is one step, the
  move of the payload is a step of its own, and steps are sequentially consistent, which is what the
  acquire/release pairs are there for. `log` in the queue state is a history no step reads.
- The code computes in machine words. Where wrap-around matters it is written out (`% 2^b`, limbs of
  32 bits, `Fragment64`, the truncating `%` of C in `CMod`).
- CRC is an arbitrary function in the DFC model: the results hold for every hash. Case conversion is
  that of the C locale.
- What comes from outside is a parameter: the scheduler's choices, the operating system's answer to a
  memory request (`Shm`), the raw outputs of a generator, the bytes in memory before a payload.
- Objects whose fields change in place are classes (`Matcher`, `Engine`, `Allocator`, `State`, `Sink`).
  Their fixed-size tables and vectors are sequences that the methods replace, except for the buffers
  of xxHash, decimal printing, shuffling and memcpy, which are arrays changed in place.

## Where the code and its documentation differ

- `async_log_helper.h:257-258` says the call returns after the flush message is processed. It may
  return while the worker still has that message in hand (`AsyncLogger.FlushMayReturnEarly`), and only
  then (`AsyncLogger.FlushWaits`).
- The overflow check of 128-bit input misses overflows (`PcgDecimal.OverflowMissed`); exactly when it is
  right is `PcgDecimal.OverflowReportedIff`. Input that ends right after the digits leaves the stream
  failed with the right value.
- `ABS` in the goto experiment is not an absolute value (`GotoBatch.ScoreIsDistance`); both versions
  share it, so they still agree.
- `alloc` documents an exception for catastrophic failures; it leaves the doubled reservation size
  behind (`HugeAlloc.Allocator.Grow`).
- A pattern search may report a pattern of 3 or 5 to 7 bytes that starts in the memory before the
  payload, once ten patterns share its key (`DfcEngine.StrayExample`); exactly when this can happen is
  `DfcEngine.ExactIff`. What is reported in addition is stated by `DfcEngine.Matcher.Search`.
- Patterns are registered as C strings, so one with zero bytes can be taken for another
  (`DfcEngine.ShadowedExample`); exactly when this happens is stated by `DfcEngine.Matcher.AddPattern`.
- `backstep` undoes `advance` only for odd multipliers (`PcgLcg.Lcg.BackstepIffOdd`).

## Model

| member | source | states |
|---|---|---|
| `MpmcQueue.CreateAccepts` | spdlog/spdlog/details/mpmc_bounded_q.h:62-75 | the constructor accepts exactly the powers of two from 2 on, and then masking a position is the position modulo the capacity |
| `MpmcQueue.FreshOk` | spdlog/spdlog/details/mpmc_bounded_q.h:62-75 | the freshly built queue satisfies the cell/sequence invariant |
| `MpmcQueue.StepKeepsInv` | spdlog/spdlog/details/mpmc_bounded_q.h:83-144 | every atomic step of every thread (including spurious compare-and-swap failures) keeps the cell/sequence invariant |
| `MpmcQueue.ExecKeepsInv` | spdlog/spdlog/details/mpmc_bounded_q.h:83-144 | the invariant holds after every interleaving of any number of threads |
| `MpmcQueue.ReachableInv` | spdlog/spdlog/details/mpmc_bounded_q.h:62-134 | in every reachable state 0 <= enqueue_pos - dequeue_pos <= capacity, and no two threads own the data of one cell |
| `MpmcQueue.WinEnqueue` | spdlog/spdlog/details/mpmc_bounded_q.h:92-96 | winning an enqueue ticket keeps the invariant |
| `MpmcQueue.WinDequeue` | spdlog/spdlog/details/mpmc_bounded_q.h:121-125 | winning a dequeue ticket keeps the invariant, and the cell then holds the item enqueued under that ticket |
| `MpmcQueue.PublishCell` | spdlog/spdlog/details/mpmc_bounded_q.h:107 | storing the sequence number after the item publishes the cell and keeps the invariant |
| `MpmcQueue.ReleaseCell` | spdlog/spdlog/details/mpmc_bounded_q.h:132 | storing position + capacity frees the cell for the ticket one lap later and keeps the invariant |
| `MpmcQueue.StepRefines` | spdlog/spdlog/details/mpmc_bounded_q.h:83-134 | each step is one operation of a bounded FIFO, or none |
| `MpmcQueue.FifoRefinement` | spdlog/spdlog/details/mpmc_bounded_q.h:83-134 | for every capacity, thread set and interleaving: the tickets replay as a legal bounded FIFO history with consecutive tickets, and the dequeuer of ticket p holds exactly the item of the enqueuer of ticket p |
| `MpmcQueue.DeliveredOnce` | spdlog/spdlog/details/mpmc_bounded_q.h:111-134 | over a whole run no ticket is delivered twice, and every delivered item is the one enqueued under that ticket |
| `MpmcQueue.RunDeliversOnce` | spdlog/spdlog/details/mpmc_bounded_q.h:62-134 | from the constructor on, for every thread set and interleaving: every delivery has a ticket of its own and brings the item enqueued under it |
| `MpmcQueue.EnqueueFailsIff` | spdlog/spdlog/details/mpmc_bounded_q.h:89-100 | the sequence comparison of enqueue reports full exactly when the ticket one lap back is not released; then the FIFO is full or a dequeuer still holds that ticket |
| `MpmcQueue.DequeueFailsIff` | spdlog/spdlog/details/mpmc_bounded_q.h:117-127 | dequeue reports empty exactly when its ticket is not published; then the FIFO is empty or an enqueuer still holds that ticket |
| `MpmcQueue.SoloFailure` | spdlog/spdlog/details/mpmc_bounded_q.h:89-127 | with every other thread idle, the sequence comparison that gives up gives up exactly when the queue is full, respectively empty |
| `MpmcSolo.SoloEnqueue` | spdlog/spdlog/details/mpmc_bounded_q.h:83-109 | a whole enqueue call with no other call in flight, spurious compare-and-swap failures included: it returns false exactly when the queue is full, and then no cell and no position has changed; otherwise it appends the item, and the exact state it leaves |
| `MpmcSolo.SoloEnqueueReturns` | spdlog/spdlog/details/mpmc_bounded_q.h:83-109 | such a call can always run to its return |
| `MpmcSolo.SoloDequeue` | spdlog/spdlog/details/mpmc_bounded_q.h:111-134 | a whole dequeue call with no other call in flight returns false exactly when the queue is empty, and then no cell and no position has changed; otherwise it brings back the oldest item and releases that one cell |
| `MpmcSolo.SoloDequeueReturns` | spdlog/spdlog/details/mpmc_bounded_q.h:111-134 | such a call can always run to its return |
| `MpmcProgress.LostEnqueue` | spdlog/spdlog/details/mpmc_bounded_q.h:83-104 | over every schedule, a thread still trying for an enqueue ticket that is no longer current lost it to another thread, whose successful compare-and-swap on exactly that ticket lies in between |
| `MpmcProgress.LostDequeue` | spdlog/spdlog/details/mpmc_bounded_q.h:111-130 | the same for dequeue tickets |
| `MpmcProgress.NoReload` | spdlog/spdlog/details/mpmc_bounded_q.h:89-104 | at the current ticket the sequence comparison never asks for a reload, so every retry follows a lost ticket or a spurious failure |
| `MpmcProgress.LockFree` | spdlog/spdlog/details/mpmc_bounded_q.h:83-144 | for k threads and every interleaving: the atomic steps are at most 2k + 5 per call that returns, plus one per spurious failure, plus k(2k + 6); so the queue is lock-free, whichever threads are stopped |
| `MpmcCalls.FailureJustified` | spdlog/spdlog/details/mpmc_bounded_q.h:83-134 | whatever step makes an enqueue or a dequeue report failure, at that moment there was no room, respectively nothing to take: a lost or spuriously failing compare-and-swap never does |
| `MpmcCalls.EnqueueCall` | spdlog/spdlog/details/mpmc_bounded_q.h:83-109 | a whole enqueue call in any schedule of any number of threads: one that returns false won no ticket and its last step saw no room; one that returns true won exactly one ticket, with its own item |
| `MpmcCalls.DequeueCall` | spdlog/spdlog/details/mpmc_bounded_q.h:111-134 | a whole dequeue call in any schedule: one that returns false won no ticket and its last step saw nothing to take; one that returns true won exactly one ticket and returns the item of that ticket |
| `MpmcQueue.ApproxSize` | spdlog/spdlog/details/mpmc_bounded_q.h:136-144 | the estimate never exceeds the capacity, is 0 exactly when the second load does not pass the first, and is the size when the first load is current |
| `AsyncLogger.LStepKeeps` | spdlog/spdlog/details/async_log_helper.h:219-344 | every step of a client or of the worker keeps the logger invariant: the queue's, what each client is doing in the queue, what each sink holds, and what a stopping worker has flushed |
| `AsyncLogger.LExecKeeps` | spdlog/spdlog/details/async_log_helper.h:219-344 | the logger invariant holds over every run |
| `AsyncLogger.ReachableLInv` | spdlog/spdlog/details/async_log_helper.h:196-216 | every reachable logger state satisfies the invariant |
| `AsyncLogger.HandledInTicketOrder` | spdlog/spdlog/details/async_log_helper.h:289-331 | the worker handles enqueued messages once each in ticket order: each sink holds exactly what it accepts among the handled tickets, at most the message in hand besides |
| `AsyncLogger.ExitsComplete` | spdlog/spdlog/details/async_log_helper.h:261-285 | the worker exits only after a terminate message was handled, the queue has nothing taken but unhandled, and every sink is flushed after its last message |
| `AsyncLogger.FlushWaits` | spdlog/spdlog/details/async_log_helper.h:254-259 | when flush(true) has returned, every message with an earlier ticket is in its sinks; the flush message itself is handled exactly unless the worker still has it in hand |
| `AsyncLogger.DiscardedFlush` | spdlog/spdlog/details/async_log_helper.h:238-251 | if the flush message was dropped by the discarding overflow policy, at most one message that was enqueued before is unhandled |
| `AsyncLogger.FlushMayReturnEarly` | spdlog/spdlog/details/async_log_helper.h:254-259 | the comment that flush(true) returns after the flush message is processed is false: on every logger some run returns with the message unprocessed and no sink flushed |
| `AsyncCalls.StepBalanced` | spdlog/spdlog/details/async_log_helper.h:233-259 | in every step each client's account balances: what it was pushing and now asks for is what has ended and what it still pushes; the log grows by exactly the ticket won; and only the discard policy drops |
| `AsyncCalls.EveryCallEnds` | spdlog/spdlog/details/async_log_helper.h:219-259 | in every run each client's messages end in the order of its calls, except the one still being pushed; the tickets are exactly the calls that were kept; any other call left a failed enqueue under the discard policy |
| `AsyncCalls.NothingLost` | spdlog/spdlog/details/async_log_helper.h:238-251 | without the discard policy every ticket of the log has an owner, and what a client owns, in ticket order, is what it asked for in call order, except the message it is still pushing |
| `AsyncCalls.EveryMessageCounted` | spdlog/spdlog/details/async_log_helper.h:238-251 | in every run the messages asked for are, as a multiset, those with a ticket, those dropped and those still being pushed; without the discard policy none is dropped |
| `AsyncCalls.LatestCall` | spdlog/spdlog/details/async_log_helper.h:254-259 | in every run a client is still pushing the message of its latest call or has returned from it: flush(true) by waiting first, every other call at once |
| `AsyncFlush.FlushesCover` | spdlog/spdlog/details/async_log_helper.h:322-344 | in every run, when the worker has found the queue empty and is about to poll again or to stop, every sink is flushed past all it was given before each flush or terminate message handled, and stays so until the next such message |
| `AsyncFlush.EmptyQueue` | spdlog/spdlog/details/async_log_helper.h:322-344 | having found the queue empty, the worker flushes every sink in one pass if a flush was requested or the timer expired, and touches no sink otherwise |
| `AsyncFlush.StopsIff` | spdlog/spdlog/details/async_log_helper.h:324-330 | having found the queue empty, the worker stops exactly when it has handled a terminate message |
| `DfcPattern.Pattern.Build` | hyperscan/vs_dfc/dfc_src/dfc.c:2237-2252 | a window byte built for either case flag matches the pattern's byte |
| `DfcPattern.Pattern.WindowFits` | hyperscan/vs_dfc/dfc_src/dfc.c:2237-2252 | every window variant of the enumeration matches the pattern |
| `DfcPattern.Pattern.WindowReaches` | hyperscan/vs_dfc/dfc_src/dfc.c:960-963 | the variants numbered below 2^m include every window that matches the pattern |
| `DfcPattern.FragmentInjective` | hyperscan/vs_dfc/dfc_src/dfc.c:1173 | different 4-byte (and 2-byte) windows have different keys |
| `DfcPattern.Compare` | hyperscan/vs_dfc/dfc_src/dfc.c:2060-2076 | the byte comparison decides whether the payload matches the first n pattern bytes, honouring nocase |
| `DfcPattern.FoldsLetters` | hyperscan/vs_dfc/dfc_src/dfc.c:2237-2252 | two bytes have one upper case, and one lower case, exactly when they are equal or the same letter of the alphabet written out |
| `DfcPattern.FitsIff` | hyperscan/vs_dfc/dfc_src/dfc.c:2060-2076 | a byte fits a pattern byte exactly when they are equal or, under nocase, the same letter of the alphabet written out |
| `DfcTable.MarkHas` | hyperscan/vs_dfc/dfc_src/dfc.h:46-47 | setting a bit of a direct filter adds exactly that 16-bit value |
| `DfcTable.AddPid` | hyperscan/vs_dfc/dfc_src/dfc.c:583-632 | filing an id under a key adds it once to that key's list and changes no other key's list, for every hash |
| `DfcCompile.MarkWindows` | hyperscan/vs_dfc/dfc_src/dfc.c:955-993 | marking all case variants of a window adds to a filter exactly the values the pattern covers |
| `DfcCompile.MarkFirst` | hyperscan/vs_dfc/dfc_src/dfc.c:890-899 | a 1-byte pattern passes the first filter whatever byte follows |
| `DfcCompile.FilterPattern` | hyperscan/vs_dfc/dfc_src/dfc.c:887-1030 | one pattern adds to each of the five filters consulted exactly the values it wants there |
| `DfcCompile.FileByte` | hyperscan/vs_dfc/dfc_src/dfc.c:901-951 | a 1-byte pattern is listed under its byte, and under the other case if nocase |
| `DfcCompile.FileWindows` | hyperscan/vs_dfc/dfc_src/dfc.c:1087-1228 | a pattern of 2 to 7 bytes is filed under every case variant of its last window and nowhere else |
| `DfcCompile.FileUpper` | hyperscan/vs_dfc/dfc_src/dfc.c:1231-1303 | a pattern of 8 or more bytes is filed under its upper-case window; the 255 repetitions change nothing |
| `DfcCompile.Fragment64NotInjective` | hyperscan/vs_dfc/dfc_src/dfc.c:1252-1254 | sign extension makes different 8-byte windows share a key |
| `DfcCompile.Fragment64SameIff` | hyperscan/vs_dfc/dfc_src/dfc.c:1252-1254 | two 8-byte windows share a key exactly when their first four bytes agree and the other four agree too or are lost to the sign extension, which is when the fourth byte is 128 or more |
| `DfcCompile.UpperLoaded` | hyperscan/vs_dfc/dfc_src/dfc.c:1252-1254 | a payload window that matches a pattern's end has the pattern's key, so sharing keys loses nothing |
| `DfcRecursive.MovePid` | hyperscan/vs_dfc/dfc_src/dfc.c:1433-1513 | an id longer than its window is moved to the recursive filter and table under exactly the byte pairs that can precede the window |
| `DfcRecursive.Deepen` | hyperscan/vs_dfc/dfc_src/dfc.c:1318-1657 | a crowded entry is split: patterns that are all window stay in the list, all others are in the recursive table and filter |
| `DfcSearch.ScanTails` | hyperscan/vs_dfc/dfc_src/dfc.c:1699-1716 | among the candidates whose window agrees, exactly those that start inside the payload and whose earlier bytes also agree are reported, once each |
| `DfcSearch.ScanBehind` | hyperscan/vs_dfc/dfc_src/dfc.c:1805-1826 | the candidates of a recursive table of CT2 and CT4 are reported exactly if the pattern fits the memory there, even if it starts before the payload |
| `DfcSearch.ScanLong` | hyperscan/vs_dfc/dfc_src/dfc.c:1864-1881 | among the long candidates exactly those that occur are reported, once each |
| `DfcSearch.HitBehind` | hyperscan/vs_dfc/dfc_src/dfc.c:1796-1803 | a pattern longer than its window that fits the memory is filed under the look-back bytes |
| `DfcSearch.VerifyShort` | hyperscan/vs_dfc/dfc_src/dfc.c:1688-1831 | an entry of CT2 or CT4 reports the matches inside the payload, and those that start before it exactly if it owns recursive structures |
| `DfcSearch.VerifyLong` | hyperscan/vs_dfc/dfc_src/dfc.c:1861-1936 | an entry of CT8 with recursive structures reports the same matches as the flat list, for every value of the look-back bytes |
| `DfcEngine.FilterStep` | hyperscan/vs_dfc/dfc_src/dfc.c:887-1030 | after each pattern the filters hold exactly what the patterns so far want |
| `DfcEngine.TableStep` | hyperscan/vs_dfc/dfc_src/dfc.c:1086-1308 | after each pattern the tables hold each pattern so far under exactly its keys |
| `DfcEngine.DeepenTable` | hyperscan/vs_dfc/dfc_src/dfc.c:1318-1657 | the recursive pass leaves every entry standing for the ids it had, and splits exactly the entries with ten or more |
| `DfcEngine.SingleBytesFit` | hyperscan/vs_dfc/dfc_src/dfc.c:913-917 | no byte lists more than two 1-byte patterns, so the fixed array of 100 never overflows |
| `DfcEngine.IdListsFit` | hyperscan/vs_dfc/dfc_src/dfc.c:2078-2081 | no list of ids is longer than the 16-bit count of the reallocation can express if and only if no key belongs to more than 65535 patterns |
| `DfcEngine.BucketFits` | hyperscan/vs_dfc/dfc_src/dfc.c:2078-2081 | a bucket is no longer than that count can express if and only if no more than 65535 different keys fall into it |
| `DfcEngine.LinkPatterns` | hyperscan/vs_dfc/dfc_src/dfc.c:660-678 | linking the hash buckets visits every registered pattern exactly once |
| `DfcEngine.HitPasses` | hyperscan/vs_dfc/dfc_src/dfc.c:1946-1994 | no filter rejects a match |
| `DfcEngine.VerifyCT1` | hyperscan/vs_dfc/dfc_src/dfc.c:1676-1686 | reports exactly the occurrences of 1-byte patterns at a position |
| `DfcEngine.VerifyTail` | hyperscan/vs_dfc/dfc_src/dfc.c:1688-1833 | reports exactly the occurrences of patterns of 2-3, respectively 4-7, bytes whose window is at a position, and the strays of a crowded key |
| `DfcEngine.VerifyCT8` | hyperscan/vs_dfc/dfc_src/dfc.c:1837-1943 | reports exactly the occurrences of patterns of 8 or more bytes whose window is at a position |
| `DfcEngine.Matcher.constructor` | hyperscan/vs_dfc/dfc_src/dfc.c:58-81 | a new matcher has no pattern |
| `DfcEngine.Matcher.AddPattern` | hyperscan/vs_dfc/dfc_src/dfc.c:203-260 | a byte string taken for a known one only adds the external id to that and keeps its case flag; any other gets the next internal id; ids stay once in their own bucket; the pattern is there afterwards if and only if no different byte string with its hash and its C string was |
| `DfcEngine.NeverShadowed` | hyperscan/vs_dfc/dfc_src/dfc.c:2285-2301 | among patterns without zero bytes no pattern is taken for another |
| `DfcEngine.ShadowedExample` | hyperscan/vs_dfc/dfc_src/dfc.c:2285-2301 | with zero bytes a different pattern is taken for a known one |
| `DfcEngine.Matcher.Compile` | hyperscan/vs_dfc/dfc_src/dfc.c:634-1671 | afterwards every filter and table holds exactly the registered patterns, and exactly the entries with ten or more of them are split |
| `DfcEngine.Matcher.ProgressiveFiltering` | hyperscan/vs_dfc/dfc_src/dfc.c:1946-1994 | all matches whose window is at a position, each once |
| `DfcEngine.Matcher.Search` | hyperscan/vs_dfc/dfc_src/dfc.c:1996-2028 | matches are reported exactly where the bytes are the pattern's, up to the case of letters under nocase; the match action is invoked exactly once per occurrence of a non-empty pattern that naive search finds and once per stray, for every payload and every memory before it, and the count returned is the number of both |
| `DfcEngine.OccursHeld` | hyperscan/vs_dfc/dfc_src/dfc.c:1996-2028 | a pattern occurs at a place exactly when every byte there is the pattern's byte or, under nocase, the same letter of the alphabet written out; the search states its matches in these terms |
| `DfcEngine.CStringIs` | hyperscan/vs_dfc/dfc_src/dfc.c:2285-2301 | the C string of a pattern is its bytes before the first zero |
| `DfcEngine.SameKeyIff` | hyperscan/vs_dfc/dfc_src/dfc.c:2285-2301 | byte strings of up to 256 bytes that do not begin with a zero byte are taken for one another exactly when they have the same length and agree before the first zero byte |
| `DfcEngine.ExactIff` | hyperscan/vs_dfc/dfc_src/dfc.c:1688-1831 | the search equals naive search on every payload, whatever lies before it, if and only if no pattern of 3 or 5 to 7 bytes has a key that ten or more patterns share |
| `DfcEngine.StrayExample` | hyperscan/vs_dfc/dfc_src/dfc.c:1717-1746 | ten patterns and a payload that has none of them, on which one is reported |
| `PcgLcg.Lcg.IterAffine` | bench/rand/pcg/pcg_random.hpp:399-402 | n steps are one affine map modulo 2^b |
| `PcgLcg.Lcg.Compose` | bench/rand/pcg/pcg_random.hpp:637-655 | the affine maps of m and of n steps compose to that of m + n steps |
| `PcgLcg.Lcg.Advance` | bench/rand/pcg/pcg_random.hpp:629-655 | jump-ahead by delta equals delta single steps, at every width |
| `PcgLcg.Lcg.Cycle` | bench/rand/pcg/pcg_random.hpp:629-655 | with an odd multiplier 2^k steps fix the low k bits |
| `PcgLcg.Lcg.FullCycle` | bench/rand/pcg/pcg_random.hpp:448-451 | with an odd multiplier 2^b steps are the identity |
| `PcgLcg.Lcg.BackstepUndoes` | bench/rand/pcg/pcg_random.hpp:448-451 | advancing by -delta undoes advancing by delta, in both orders |
| `PcgLcg.Lcg.BackstepIffOdd` | bench/rand/pcg/pcg_random.hpp:448-451 | backstep undoes every advance exactly when the multiplier is odd |
| `PcgLcg.Lcg.Doubling` | bench/rand/pcg/pcg_random.hpp:660-679 | after 2^k steps the multiplier and the increment have exactly the shape that flips one more bit |
| `PcgLcg.Lcg.Flip` | bench/rand/pcg/pcg_random.hpp:669-675 | 2^k steps flip bit k (k + 2 for the multiplicative case) and keep all lower bits |
| `PcgLcg.Lcg.Distance` | bench/rand/pcg/pcg_random.hpp:660-679 | terminates in at most m rounds, its assertion holds, and the result is the least number of steps that reaches the target on the m masked bits |
| `PcgLcg.Lcg.Period` | bench/rand/pcg/pcg_random.hpp:380-383 | the period from every state is exactly 2^b, or 2^(b-2) for the multiplicative generator on odd states |
| `PcgLcg.Lcg.NoReturn` | bench/rand/pcg/pcg_random.hpp:660-679 | the low bits of a sequence do not repeat before all of them have flipped |
| `PcgLcg.Lcg.StrideIter` | bench/rand/pcg/pcg_random.hpp:699-701 | the strides of a sequence follow the multiplicative sequence of the same multiplier |
| `PcgLcg.Lcg.StrideIsStep` | bench/rand/pcg/pcg_random.hpp:699-701 | adding the stride to a state is one step of the generator |
| `PcgLcg.DefaultConstants` | bench/rand/pcg/pcg_random.hpp:149-165 | the default multipliers are 5 modulo 8 and the increments odd |
| `PcgLcg.Engine.Advance` | bench/rand/pcg/pcg_random.hpp:443-446 | the engine ends delta single steps after its old state |
| `PcgLcg.Engine.Backstep` | bench/rand/pcg/pcg_random.hpp:448-451 | the engine ends where delta steps lead back to its old state |
| `PcgLcg.Engine.MinusSameStream` | bench/rand/pcg/pcg_random.hpp:696-697 | the difference of two engines on one stream is how far the right one has to jump |
| `PcgLcg.Engine.MinusOtherStream` | bench/rand/pcg/pcg_random.hpp:698-706 | the difference across streams is the number of steps after which one step of the right engine moves exactly as far as one step of the left, or exactly as far back |
| `PcgOutput.UnxorshiftInverts` | bench/rand/pcg/pcg_extras.hpp:262-279 | unxorshift undoes x ^ (x >> shift) for every width and every shift of at least 1 |
| `PcgNumbers.ArithmeticModels` | bench/rand/pcg/pcg_extras.hpp:262-279 | the word operators of the model are the operators on unsigned numbers, with the masks the source builds |
| `PcgNumbers.UnxorshiftValue` | bench/rand/pcg/pcg_extras.hpp:262-279 | unxorshift written with the source's masks on numbers computes what the model on words computes |
| `PcgNumbers.UnxorshiftNumbers` | bench/rand/pcg/pcg_extras.hpp:262-279 | on numbers unxorshift undoes x ^ (x >> shift) for every number of at most the given bits, at every width and shift |
| `PcgOutput.LowMaskValue` | bench/rand/pcg/pcg_extras.hpp:267-275 | the low mask of the model is the number (1 << k) - 1 |
| `PcgOutput.UnoutputByInverts` | bench/rand/pcg/pcg_random.hpp:925-963 | unoutput undoes output for any invertible multiplication and any shift choice that the first xorshift preserves |
| `PcgOutput.UnoutputInverts` | bench/rand/pcg/pcg_random.hpp:925-963 | unoutput undoes output whenever the two constants are inverse modulo 2^width |
| `PcgOutput.InverseConstants` | bench/rand/pcg/pcg_random.hpp:905-920 | the multiplier and unmultiplier of every supported width are inverse |
| `PcgOutput.UnoutputInvertsSupported` | bench/rand/pcg/pcg_random.hpp:905-964 | unoutput(output(v)) = v at widths 8, 16, 32, 64 and 128 |
| `PcgNumbers.OutputIs` | bench/rand/pcg/pcg_random.hpp:925-943 | output on numbers at every width: the random shift is the number in the top bits, and the result is the xorshift by it, the product and the last xorshift in plain arithmetic |
| `PcgNumbers.OutputSupported` | bench/rand/pcg/pcg_random.hpp:905-943 | the same at widths 8, 16, 32, 64 and 128 with the shifts 2/6, 3/11, 4/22, 5/43, 6/86 and the multipliers written out |
| `PcgSampling.ThresholdIs` | bench/rand/pcg/pcg_extras.hpp:543-544 | the rejection threshold is 2^b modulo the bound, so the accepted values are a multiple of the bound in number |
| `PcgSampling.BoundedRandUniform` | bench/rand/pcg/pcg_extras.hpp:539-550 | every result has the same number of accepted raw values |
| `PcgSampling.BoundedRand` | bench/rand/pcg/pcg_extras.hpp:539-550 | returns the first acceptable raw value reduced by the bound |
| `PcgSampling.ShuffledPermutes` | bench/rand/pcg/pcg_extras.hpp:553-565 | a shuffle is a permutation for every sequence of choices |
| `PcgSampling.ShuffledReachesAll` | bench/rand/pcg/pcg_extras.hpp:553-565 | every rearrangement is reached by some choices |
| `PcgSampling.ShuffledInjective` | bench/rand/pcg/pcg_extras.hpp:553-565 | on distinct elements different choices give different rearrangements |
| `PcgSampling.SwapAt` | bench/rand/pcg/pcg_extras.hpp:562-563 | two elements change places and every other position keeps its element |
| `PcgSampling.Shuffle` | bench/rand/pcg/pcg_extras.hpp:553-565 | the in-place loop, each choice drawn by bounded_rand from the raw outputs: it computes the shuffle of the accepted outputs, is complete exactly when they suffice, and permutes the array in any case |
| `PcgSampling.KeptAccepted` | bench/rand/pcg/pcg_extras.hpp:539-550 | the outputs a complete shuffle keeps are one acceptable value per draw |
| `PcgSampling.ShuffleUniform` | bench/rand/pcg/pcg_extras.hpp:553-565 | on distinct elements every permutation is reached by the same number of accepted runs of raw outputs |
| `PcgUint128.Carry` | bench/rand/pcg/pcg_uint128.hpp:239-246 | limb, carry in and carry out satisfy the exact sum |
| `PcgUint128.Borrow` | bench/rand/pcg/pcg_uint128.hpp:248-255 | limb, borrow in and borrow out satisfy the exact difference |
| `PcgUint128.Add` | bench/rand/pcg/pcg_uint128.hpp:618-634 | addition modulo 2^128 |
| `PcgUint128.Sub` | bench/rand/pcg/pcg_uint128.hpp:637-653 | subtraction modulo 2^128 |
| `PcgUint128.LessIs` | bench/rand/pcg/pcg_uint128.hpp:703-707 | the comparison of halves is the comparison of values |
| `PcgUint128.Mul` | bench/rand/pcg/pcg_uint128.hpp:574-615 | multiplication modulo 2^128 |
| `PcgUint128.Shl` | bench/rand/pcg/pcg_uint128.hpp:730-761 | left shift is multiplication by 2^shift modulo 2^128, for every shift the count type can hold |
| `PcgUint128.Shr` | bench/rand/pcg/pcg_uint128.hpp:765-797 | right shift is division by 2^shift |
| `PcgUint128.FLog2` | bench/rand/pcg/pcg_uint128.hpp:483-496 | the position of the highest set bit |
| `PcgUint128.DivMod` | bench/rand/pcg/pcg_uint128.hpp:512-557 | terminates with quotient * divisor + remainder = dividend and remainder < divisor for every non-zero divisor, without overflow of the shifted factor |
| `PcgDecimal.FitsBuffer` | bench/rand/pcg/pcg_extras.hpp:146-150 | the 40-character buffer holds every 128-bit numeral and its terminator |
| `PcgDecimal.Print` | bench/rand/pcg/pcg_extras.hpp:146-159 | prints the decimal numeral of the value |
| `PcgDecimal.Parse` | bench/rand/pcg/pcg_extras.hpp:165-203 | reads all leading digits; the value is exact modulo 2^128 or all ones if overflow was noticed; when the stream fails |
| `PcgDecimal.NoFalseAlarm` | bench/rand/pcg/pcg_extras.hpp:189-193 | a number that fits never raises the overflow flag |
| `PcgDecimal.FlaggedIff` | bench/rand/pcg/pcg_extras.hpp:189-193 | whether the overflow flag goes up is read off the number: exactly if for it, or for it without some last digits, the part above a multiple of 2^128 passes nine times the number without one digit more |
| `PcgDecimal.OverflowReportedIff` | bench/rand/pcg/pcg_extras.hpp:189-193 | the overflow check is right exactly for the numbers that fit and those so caught; below 10 * 2^128 that is one comparison of the number |
| `PcgDecimal.OverflowMissed` | bench/rand/pcg/pcg_extras.hpp:189-193 | 1.5 * 2^128 is read without the flag, as 2^127 |
| `PcgDecimal.RoundTrip` | bench/rand/pcg/pcg_extras.hpp:119-203 | reading back a printed value gives the value; the stream is left failed exactly when the text ends there |
| `GotoBatch.ScoreIsDistance` | goto/synthetic-divergence/nogoto.c:18 | the unparenthesised ABS macro is the distance modulo 8 exactly when the slot is larger than the jumper or both remainders vanish |
| `GotoBatch.BestSlot` | goto/synthetic-divergence/nogoto.c:39-50 | the first slot with the largest score |
| `GotoBatch.LaneResultIs` | goto/synthetic-divergence/nogoto.c:36-55 | a packet's result is where it is after its first hop that meets a multiple of 16, or after as many hops as the depth allows |
| `GotoBatch.Sequential` | goto/synthetic-divergence/nogoto.c:30-59 | the sequential loop adds every packet's result to the sum |
| `GotoBatch.SetBit` | goto/synthetic-divergence/fpp.h:1 | setting a lane's bit marks exactly that lane as done, and again changes nothing |
| `GotoBatch.MaskFull` | goto/synthetic-divergence/goto.c:90 | the mask is full exactly when every lane is done |
| `GotoBatch.NextLane` | goto/synthetic-divergence/fpp.h:8 | the masked increment is the next lane round-robin and comes closer to any other lane |
| `GotoBatch.Yield` | goto/synthetic-divergence/fpp.h:4-10 | saving a label and switching changes no other lane and no sum, and reduces the remaining work |
| `GotoBatch.Finish` | goto/synthetic-divergence/goto.c:85-89 | a finishing lane adds its result once |
| `GotoBatch.Revisit` | goto/synthetic-divergence/goto.c:87-94 | revisiting a finished lane changes nothing |
| `GotoBatch.Segment` | goto/synthetic-divergence/goto.c:57-85 | one lane's code between two switches makes one hop of its packet |
| `GotoBatch.Batched` | goto/synthetic-divergence/goto.c:39-96 | for every power-of-two batch size, depth and table the batched machine terminates with the sum of the sequential loop |
| `HugeAlloc.GetClass` | utils/huge_alloc.h:339-343 | the bit-trick class is the smallest that fits |
| `HugeAlloc.GetClassSlow` | utils/huge_alloc.h:346-357 | the reference loop finds the same class |
| `HugeAlloc.RoundUp` | utils/huge_alloc.h:86-91 | the smallest multiple of the power of two that is not smaller |
| `HugeAlloc.ClassOfClassSize` | utils/huge_alloc.h:310-311 | a class size belongs to its own class, so the assertion in free_buf holds |
| `HugeAlloc.TakeKeeps` | utils/huge_alloc.h:382-393 | handing out a buffer keeps all buffers disjoint, placed and accounted for |
| `HugeAlloc.FreeKeeps` | utils/huge_alloc.h:307-315 | taking a buffer back keeps the same |
| `HugeAlloc.SplitKeeps` | utils/huge_alloc.h:361-376 | splitting keeps the same and conserves bytes |
| `HugeAlloc.CarveKeeps` | utils/huge_alloc.h:405-418 | carving a fresh region keeps the same and adds 8 MB per buffer |
| `HugeAlloc.Allocator.constructor` | utils/huge_alloc.h:146-153 | an empty allocator satisfies the invariant |
| `HugeAlloc.Allocator.AllocRaw` | utils/huge_alloc.h:177-242 | a raw reservation records a region of whole hugepages and touches nothing else; the buffer returned has class size SIZE_MAX |
| `HugeAlloc.Allocator.ReserveHugepages` | utils/huge_alloc.h:405-418 | fills the largest class from a fresh region, or changes nothing |
| `HugeAlloc.Allocator.Split` | utils/huge_alloc.h:361-376 | two buffers of the empty lower class for one of the class above |
| `HugeAlloc.Allocator.SplitDown` | utils/huge_alloc.h:292-295 | every split call finds the class below empty |
| `HugeAlloc.Allocator.AllocFromClass` | utils/huge_alloc.h:382-393 | hands out the last buffer of the class; the assignment inside the assertion changes nothing |
| `HugeAlloc.Allocator.Grow` | utils/huge_alloc.h:279-290 | running out of memory restores the reservation size, an exception does not |
| `HugeAlloc.Allocator.Alloc` | utils/huge_alloc.h:261-304 | a new live buffer of the smallest class that fits, exactly when there is room or memory; a null result leaves the allocator unchanged; an exception leaves only the doubled reservation size |
| `HugeAlloc.Allocator.FreeBuf` | utils/huge_alloc.h:307-315 | the buffer returns to its class and is no longer live |
| `HugeAlloc.Allocator.StatsAreMultiples` | utils/huge_alloc.h:320-329 | the assertions of the two statistics getters hold |
| `XxStream.MixTail` | bench/xxhash/xxhash.c:341-353 | the loops over the rest compute the tail function of the bytes |
| `XxStream.OneShot` | bench/xxhash/xxhash.c:288-362 | the walk over the input computes the fold of all blocks, then mixes the rest |
| `XxStream.State.Reset` | bench/xxhash/xxhash.c:588-599 | a reset state stands for the empty message |
| `XxStream.State.Update` | bench/xxhash/xxhash.c:615-702 | feeding a chunk appends it to the message the state stands for |
| `XxStream.State.Digest` | bench/xxhash/xxhash.c:716-756 | the digest is the hash of everything fed so far and leaves the state as it is |
| `XxStream.Stream` | bench/xxhash/xxhash.c:588-756 | for every split of a message every intermediate digest is the hash of the bytes so far |
| `XxHash.Xxh32` | bench/xxhash/xxhash.c:288-362 | the one-shot walk with the constants of XXH32 equals the hash as a function of the whole message |
| `XxHash.Xxh32Stream` | bench/xxhash/xxhash.c:588-756 | streaming XXH32 gives at every prefix the one-shot hash |
| `XxHash.Xxh64` | bench/xxhash/xxhash.c:393-502 | the one-shot walk with the constants of XXH64 equals the hash as a function of the whole message |
| `XxHash.Xxh64Stream` | bench/xxhash/xxhash.c:601-949 | streaming XXH64 gives at every prefix the one-shot hash |
| `XxLaws.ReadDigits` | bench/xxhash/xxhash.c:236-260 | a little-endian load is the number whose base-256 digits are the bytes |
| `XxLaws.RotlLaw` | bench/xxhash/xxhash.c:187-188 | a rotation of a word swaps its two parts |
| `XxLaws.Xxh64Is` | bench/xxhash/xxhash.c:393-502 | every message is cut in one way into blocks, words, at most one half word and single bytes, with the counts read off its length, and XXH64 takes exactly these steps in this order |
| `XxLaws.Xxh32Is` | bench/xxhash/xxhash.c:288-362 | the same for XXH32 |
| `XxPermutes.Steps64Permute` | bench/xxhash/xxhash.c:416-499 | the lane step, the word, half-word and byte steps and the avalanche are permutations of the 64-bit words |
| `XxPermutes.Steps32Permute` | bench/xxhash/xxhash.c:311-359 | the same for the 32-bit words |
| `XxReference.Xxh64Agrees` | bench/xxhash/xxhash.c:393-502 | XXH64 is a second definition in plain arithmetic with every constant written out, for every seed and message |
| `XxReference.Xxh32Agrees` | bench/xxhash/xxhash.c:288-362 | the same for XXH32 |
| `XxVectors.Empty64` | bench/xxhash/xxhash.c:393-502 | the published value of XXH64 for the empty message |
| `XxVectors.Abcd64` | bench/xxhash/xxhash.c:393-502 | the published value for the four bytes abcd |
| `XxVectors.Fourteen64` | bench/xxhash/xxhash.c:393-502 | the published value for fourteen bytes with a seed: a word, a half word and two bytes |
| `XxVectors.Nobody64` | bench/xxhash/xxhash.c:393-502 | the published value for a text of 39 bytes: a block, a half word and three bytes |
| `XxVectors.Empty32` | bench/xxhash/xxhash.c:288-362 | the published value of XXH32 for the empty message |
| `XxVectors.Abcd32` | bench/xxhash/xxhash.c:288-362 | the published value for the four bytes abcd |
| `XxVectors.Nobody32` | bench/xxhash/xxhash.c:288-362 | the published value for a text of 39 bytes: two blocks, a word and three bytes |
| `RteMemcpy.Mov` | bench/memcpy/rte_memcpy.h:64-216 | a move loads all its bytes, then stores them |
| `RteMemcpy.Extend` | bench/memcpy/rte_memcpy.h:281-297 | a move overlapping bytes already copied extends the copy and stays inside the destination range |
| `RteMemcpy.Small` | bench/memcpy/rte_memcpy.h:260-279 | one scalar move per bit of the length copies fewer than 16 bytes |
| `RteMemcpy.Chunks` | bench/memcpy/rte_memcpy.h:321-363 | the fall-through switch makes one move for each whole chunk |
| `RteMemcpy.Large` | bench/memcpy/rte_memcpy.h:304-369 | loop, both switches and the last overlapping move copy exactly the range |
| `RteMemcpy.Memcpy` | bench/memcpy/rte_memcpy.h:255-370 | exactly bytes 0..n-1 are copied for every n, and no other byte changes |
| `RotatingSink.FilenameIs` | spdlog/spdlog/sinks/file_sinks.h:97-105 | the base file has the base name; file n > 0 has the base name, a dot and the decimal digits of n without a leading zero |
| `RotatingSink.FilenameInjective` | spdlog/spdlog/sinks/file_sinks.h:97-105 | different indices have different file names |
| `RotatingSink.Rename` | spdlog/spdlog/sinks/file_sinks.h:121-131 | removing the target and renaming the source moves the contents and touches no other file |
| `RotatingSink.Sink.constructor` | spdlog/spdlog/sinks/file_sinks.h:67-77 | opening keeps all contents, one part per file, and knows the base file's size |
| `RotatingSink.Sink.Rotate` | spdlog/spdlog/sinks/file_sinks.h:113-134 | each file moves to the next index, the oldest is dropped, the base file becomes empty, and no other file is touched |
| `RotatingSink.Sink.SinkIt` | spdlog/spdlog/sinks/file_sinks.h:85-94 | the message extends the newest part if that stays within the limit and starts a new part otherwise; the base file is over the limit only when it holds this message alone |
| `RotatingSink.ReadIsSuffix` | spdlog/spdlog/sinks/file_sinks.h:107-134 | the files read in order are the newest parts of the history, whole |
| `RotatingSink.SuffixOfHistory` | spdlog/spdlog/sinks/file_sinks.h:107-134 | everything written is what was dropped, in whole files, followed by what can be read |
| `RotatingSink.PartsFlatten` | spdlog/spdlog/sinks/file_sinks.h:85-94 | cutting into parts loses, repeats and moves nothing |
| `RotatingSink.PartsKeepOld` | spdlog/spdlog/sinks/file_sinks.h:85-94 | closed parts are never touched again, and the newest is only extended |
| `RotatingSink.PartsBounded` | spdlog/spdlog/sinks/file_sinks.h:85-94 | every part begun after the start is within the limit or is a single message |
| `RotatingSink.Run` | spdlog/spdlog/sinks/file_sinks.h:67-135 | over every run the files hold exactly the newest parts into which the size rule cuts the initial contents and all messages; read in order they are what was written without the oldest parts; the base file is over the limit only as the last message alone; no other file is touched |

## Left out

- Positions of the queue are unbounded; wrap-around of `size_t` after 2^64 operations is not modelled, nor are memory orders weaker than sequential consistency.
- Sleeping, clocks, worker callbacks, error handlers and the time-based flush of the async logger; formatter and sinks do not throw.
- AsyncLogger.HandledInTicketOrder: liveness is not stated, since a scheduler may stop running the worker.
- DfcEngine.Matcher.AddPattern: the comparison of patterns as C strings is modelled with a zero after the bytes of a pattern, where the source's buffers end. The external ids of one pattern are unbounded; the source grows the list through a 16-bit count, so it holds at most 65535.
- DfcEngine.Matcher.Compile: lists and buckets of the tables are unbounded; the source grows them through a 16-bit count. `DfcEngine.IdListsFit` and `DfcEngine.BucketFits` state when that suffices.
- The DFC filters `cDF2`, `ADD_DF_8_1` and `ADD_DF_8_2` are built but never consulted, and are not modelled; neither are statistics, memory counters and freeing.
- DfcEngine.Matcher.Search: filter bitmaps and hash buckets are values replaced on update; sharing of memory between them is not captured.
- PcgLcg.Lcg.Distance: requires a multiplier of 1 modulo 4 with an odd increment, or of 5 modulo 8 with increment 0 and states that are odd and agree in their two low bits.
- PcgUint128.Shr: requires a shift below 160; beyond that the source reads limbs that do not exist.
- PcgSampling.Shuffle: the raw outputs of the generator are a finite sequence; a shuffle that runs out of them is reported as incomplete.
- PcgDecimal.Parse: white space before the number is skipped by the stream before the modelled code; hexadecimal output is not modelled.
- Other PCG output functions, the extended generators and seed sequences.
- GotoBatch.Batched: the sum and the done mask are unbounded integers; the source's `int` limits the batch to 30 lanes. Per-lane arrays are sequences updated at the running lane.
- HugeAlloc.Allocator.Alloc: requires a size of 1 to 8 MB, as the source asserts; address arithmetic and the doubling of the reservation size do not wrap. System calls, NUMA binding and deletion of regions are outside the model.
- XxStream.State.Update: requires that the message stays below 2^64 bytes, the range of its length field; null input and big-endian loads are not modelled.
- RteMemcpy.Memcpy: the vector registers are not modelled, only that all bytes of a move are loaded before any is stored.
- RotatingSink.Run: I/O errors, open retries and buffering below the file are not modelled.
- CityHash, SipHash, networking, GPU and timing code, the ANTLR translators, formatting and the other sinks.
