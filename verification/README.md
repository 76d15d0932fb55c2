# Kendryte K210 standalone SDK: a verified model

The SDK drives a dual-core RISC-V chip without an operating system. This project models the parts of it that
carry algorithms, protocols between cores or interrupts, or exact arithmetic, and proves what they promise.
Each file models one component; hardware is replaced by a small abstract device.

| file | what it models |
|---|---|
| Barrier.dfy | the sense-reversing barrier of the cores, as a step system over all interleavings |
| Semaphore.dfy, SemaphoreCalls.dfy | the swap spinlock and the counting semaphore on it, linearised against an atomic semaphore; what an undisturbed call does |
| CoreLock.dfy, CoreLockCalls.dfy | the reentrant core lock as it stands, with the exact price of its one misplaced release; what an undisturbed call does |
| Pll.dfy, PllOffers.dfy | the PLL divider search, the register writes and the frequency that is read back; which requests are granted |
| Plic.dfy, PlicLoss.dfy, PlicNesting.dfy | nested external interrupts on one hart as a stack machine; when a completion is ignored; that they nest, and how deep |
| Numerals.dfy, Fields.dfy, Format.dfy, FormatMeaning.dfy, FormatPieces.dfy | the printer: digits, number parsing, padded fields, the format interpreter, bounded and unbounded output; what a directive means; formats made of several directives |
| Bytes.dfy, Sha256.dfy, Aes.dfy | feeding the hash and cipher accelerators in pieces |
| Rtc.dfy | weekday and day-of-year formulas against day-by-day counting; timer and alarm read-back |
| Misaligned.dfy, TrapFrame.dfy | the trap handlers that emulate misaligned loads and stores, and what they mean for the interrupted program |
| Pcm.dfy, Playback.dfy, I2s.dfy | PCM formats and their conversion; when what is sent are the values of the samples; audio playback through two alternating buffers and DMA |
| CircularList.dfy | the circular doubly linked list of the DMA driver |
| Kpu.dfy, KpuStream.dfy, KpuCores.dfy, KpuRuns.dfy, KpuPrograms.dfy, KpuCallback.dfy, KpuWords.dfy, KpuDriver.dfy | runs of the neural-network accelerator on several cores: the step system, what the layer FIFO receives, layer by layer and word by word, programs on one core, failing runs, for which programs the FIFO and the callbacks are right, and the driver's methods |
| PinMap.dfy | the pin multiplexer |
| Options.dfy | the Option datatype |

Conventions. Concurrent code is a step system under sequential consistency, where swap, fetch-and-add and
compare-and-swap are single steps. In Barrier, Semaphore and CoreLock a step makes at most one access to shared
memory. In Plic a step is one line of the handler, or one action of a device or of software. In Kpu the lines of
`kpu_run` and of `kpu_continue` are steps (the twelve writes of a layer are one), and the completion handler is two,
the swap and the rest. A core that is in one of the accelerator's handlers does nothing else, because they all have
the same priority (`Plic.PrioritiesIncrease`), and neither interrupt is taken again while its handler runs on some
core (`Plic.ClaimsAreCompleted`). A run is a sequence of steps of arbitrary threads or cores, or of hardware events,
and the theorems range over all runs. Beside each step system stands a class that performs the same steps on mutable
fields and is proved to follow it. Fields and parameters called history in the comments exist only so that theorems
can mention the past. Code that loops over buffers is a method over arrays, proved against a function of the inputs
whose meaning is stated by lemmas.

## Where the code departs from the natural contract

These are stated as exact conditions, with the code left as it is.

- `corelock_lock` releases the spinlock a second time after a contended retry (lib/bsp/include/atomic.h:200), so that
  two cores can end up holding the lock. `CoreLock.ExclusionIff`: on n cores, at most one of them holds the lock in
  every state of every run of a set of calls if and only if n is less than 2, or corelock_lock is not in the set, or
  corelock_unlock is not. `CoreLock.Line200BreaksExclusion` is the run for the other half, on any number of cores
  from two, and it consists of corelock_lock and corelock_unlock alone.
- The misaligned handlers decode a negative offset as minus its low ten bits minus one
  (`Misaligned.OffsetIsSignExtension`: the architecture's offset if and only if it is below 2048), read x0 from a slot
  that the trap entry never writes, and read the stack pointer from a slot that it writes after moving it
  (lib/bsp/crt.S:131-164). `TrapFrame.LoadAgreesIff` and `TrapFrame.StoreAgreesIff` say for which instructions and
  which slot of x0 the emulation is that of the architecture on every memory;
  `TrapFrame.StoreOfZeroWritesStaleByte` is a store of x0 that writes a 1.
- The PLL search compares a candidate's error with the last acceptance's, or at first with the tolerance, times 1.000001,
  and takes what it has found only below the tolerance times 0.999999. `PllOffers.GrantedIffOffered`: unless the first
  numerator within the limit is off by the tolerance to one part in ten thousand, a request is granted if and only if
  some numerator offers dividers that fit, with an error below the tolerance. `PllOffers.RefusedAtTheEdge` is a
  request that is refused although a numerator offers dividers with a third of the tolerance.
- The day of the year that `rtc_timer_get_tm` reports counts from 1 (`Rtc.SetThenGet`), where the field of the C
  structure counts from 0.
- The alarm reduces day and month differently from the timer. `Rtc.AlarmReadsBack`: an alarm survives if and only
  if it is not on a 31st, not in December, and in the timer's century.
- The weekday formula divides year -1 toward zero. `Rtc.WeekDayCountsDays`: it is the true weekday if and only if
  the date is on or after 1 March of year 0.
- `a2u` accepts a digit equal to the base. `Numerals.ReadBack`: a numeral is read back if and only if the next
  character is not accepted by that test. `Numerals.AcceptedCharacters`: for widths and precisions the ten digits, 'a'
  and 'A', and for base 16 no other characters than its digits.
- `i2s_play` gives the DMA the raw data for a last partial frame, and frees its buffers without waiting.
  `I2s.PlayConverted`: a transfer may still be reading the freed buffer if and only if there was a whole frame and
  no partial one after it.
- `i2s_play` reads anything but 16- and 24-bit samples as 32-bit ones, leaves out tracks, and sends the data of a last
  partial frame unconverted. `Playback.AllHeardIff`: for all data, what a call sends are the values of all samples of
  all tracks in order if and only if there are none; or the format needs no conversion (16 or 32 bits, two tracks); or
  there is less than a frame of them and they are two tracks of four bytes each; or the frames divide them and a
  sample is one track of 16, 24 or 32 bits or two of 24 (with up to seven more bits where the driver counts four
  bytes). `Playback.PackedTracks` is a failing input whose bytes are all taken from the right places.
  `Playback.TailInsideIff` says when the unconverted data is the caller's, `Pcm.FramesStayInsideIff` when the
  conversion reads nothing behind its frames.
- `kpu_run_all_done` frees the context before it reads the callback, and `kpu_run` first copies the callback that
  happens to be in the caller's structure. `KpuCallback.OwnIff`: in every run over a set of requests each finished run
  is answered by its own callback if and only if all requests are made on one core, or all callbacks, those passed
  and those in the structures, are one. `KpuCallback.OvertakenBySameCallback` is a failing run of two tasks with the
  same callback.
- `kpu_run` sets the remaining length and the remaining layers only after it has copied those of the caller's
  structure, and a call of `kpu_continue` reads and changes them without a lock. `KpuCores.RightIffNothingEarly`: on
  one core the FIFO receives the right layers in every state of a run if and only if no layer is pushed before the
  remaining layers are set. `KpuPrograms.RightIffOneCore`: apart from that, it does so in every run over a set of
  requests if and only if they are all made on one core; `KpuPrograms.LastLayerTwice` is the failing run of two.
  `KpuPrograms.RightIffOneStart`: programs whose runs have at most n accepted starts are safe from both if and only if
  n is at most 1; `KpuPrograms.EarlyInterrupt` shows that no contents of the structures help.
- The interrupt controller ignores the completion of a source that its own callback has disabled.
  `PlicLoss.NothingLostIff`: that happens in no run that disables only sources in a set if and only if there is no
  source in the set or the hart takes no external interrupts.
- Setting the reserved pin function leaves it on other pins too. `PinMap.FoundWhereSet`: the lookup finds the pin
  just set if and only if the function is not the reserved one or no lower pin has it.

## Model

| member | source | states |
|---|---|---|
| Barrier.RunInv | lib/bsp/include/util.h:156-178 | in every reachable state the shared sense is the parity of the round, each thread's counters and private sense agree with the round, a leader has everybody else spinning, and count is the number of arrivals of the current round |
| Barrier.NoEarlyReturn | lib/bsp/include/util.h:156-178 | no thread returns from its k-th call before every thread has done its k-th fetch-and-add, and no two threads are ever more than one round apart |
| Barrier.CountInRange | lib/bsp/include/util.h:160-174 | count stays between 0 and the number of cores, and at most one thread is past the test that elects the last arrival |
| Barrier.NeverAllBlocked | lib/bsp/include/util.h:166-177 | a state in which every thread is stuck spinning is unreachable |
| Barrier.MovesAreWork | lib/bsp/include/util.h:156-178 | every step that is not a blocked spin adds to the work done, so progress can be counted |
| Barrier.EveryThreadAdvances | lib/bsp/include/util.h:156-178 | a run with m effective steps has taken every single thread through at least m/(4*cores) - 2 complete calls, whatever the interleaving |
| Barrier.Machine.Advance | lib/bsp/include/util.h:156-178 | one line of the barrier on the mutable statics and thread-locals is one step of the step system |
| Barrier.Machine.Execute | lib/bsp/include/util.h:156-178 | any interleaving on the mutable variables is a run of the step system and ends in its invariant |
| Semaphore.RunInv | lib/bsp/include/atomic.h:75-133 | the lock word is 0 exactly when nobody is inside, at most one thread is inside, what the holder has loaded is current, and the log of completed operations is legal |
| Semaphore.RunIsLinearizable | lib/bsp/include/atomic.h:96-133 | the completed operations in order of completion are a history of an atomic semaphore, each thread's entries in it are, one for each completed call and in order, a signal, a wait or a count of the amount it was called with, the free semaphore holds the value that history leads to, and waiting is exact in every state |
| Semaphore.SpinlockExcludes | lib/bsp/include/atomic.h:75-94 | at most one thread is between a successful swap and its release, and then the word is not 0 |
| Semaphore.ReplayConserves | lib/bsp/include/atomic.h:96-118 | a history leads to the initial count plus its signals minus its waits |
| Semaphore.CountIsConserved | lib/bsp/include/atomic.h:96-118 | whenever the spinlock is free, count is the initial count plus all completed signals minus all completed waits |
| Semaphore.CountNeverNegative | lib/bsp/include/atomic.h:96-118 | with a non-negative start and non-negative signals, count is never negative, not even in the middle of an operation |
| Semaphore.WaitSawEnough | lib/bsp/include/atomic.h:103-118 | a wait completes only in a step of a thread that saw a covering count under the lock, and takes exactly its amount |
| SemaphoreCalls.CallAlone | lib/bsp/include/atomic.h:75-133 | from a free spinlock an undisturbed signal, count or covered wait goes through with exactly its effect on the count, and a wait that is not covered is counted as waiting and changes nothing else |
| SemaphoreCalls.WaitAlone | lib/bsp/include/atomic.h:103-118 | a wait that is under way gets through undisturbed if and only if the count covers its amount |
| Semaphore.Machine.Advance | lib/bsp/include/atomic.h:75-133 | one access on the mutable words is one step of the step system |
| Semaphore.Machine.Execute | lib/bsp/include/atomic.h:75-133 | any interleaving on the mutable words is a run of the step system, with a legal log and a conserved count |
| CoreLock.RunInv | lib/bsp/include/atomic.h:135-236 | as long as line 200 has not hit a locked word, the spinlock word is truthful, one core at most is inside, and the published owner and nesting are what the cores hold |
| CoreLock.OneOwner | lib/bsp/include/atomic.h:135-236 | in such runs at most one core holds the lock, at any depth |
| CoreLock.FreeWordsNameOwner | lib/bsp/include/atomic.h:135-236 | whenever the inner spinlock is free, core names the owner and count is its nesting depth, or core is -1 and count 0 when nobody holds the lock |
| CoreLock.UnlockExitsIffNotHeld | lib/bsp/include/atomic.h:203-236 | a core that holds the lock always gets through its unlock, and only a core that holds nothing ends in the exit call |
| CoreLockCalls.ForeignIsForeign | lib/bsp/include/atomic.h:149-168 | in every run without a stray release a core is refused or sent to wait only if it does not hold the lock and another core does |
| CoreLockCalls.WaitersHoldNothing | lib/bsp/include/atomic.h:190-201 | in such runs a core that waits holds nothing, so that no core waits for itself |
| CoreLockCalls.Acquire | lib/bsp/include/atomic.h:140-201 | from a free spinlock, an undisturbed trylock or lock of a core that holds the lock d times ends with d + 1 and the words saying so, takes a lock that is nobody's, and on somebody else's is refused or waits without a change |
| CoreLockCalls.AcquireAfterWaiting | lib/bsp/include/atomic.h:190-201 | a waiting corelock_lock takes the lock once nobody holds it |
| CoreLockCalls.Release | lib/bsp/include/atomic.h:203-236 | an undisturbed unlock lowers the depth by one, makes the lock nobody's at 0, and on a lock that is not held ends in the exit call without a change |
| CoreLockCalls.Busy | lib/bsp/include/atomic.h:140-149 | while the spinlock is taken trylock returns, and lock and unlock try again |
| CoreLock.ExclusionIff | lib/bsp/include/atomic.h:135-236 | on n cores, at most one core holds the lock in every state of every run over a set of calls if and only if n < 2, or corelock_lock is not in the set, or corelock_unlock is not in it |
| CoreLock.FirstBranchesNeverStray | lib/bsp/include/atomic.h:135-188 | runs that acquire through trylock or the first two branches of lock never make that store, so all theorems hold of them |
| CoreLock.WithoutLockNeverStray | lib/bsp/include/atomic.h:135-168 | in runs without corelock_lock that store never hits a locked word |
| CoreLock.WithoutUnlockNeverStray | lib/bsp/include/atomic.h:170-201 | nor in runs without corelock_unlock, where no core gets past the wait for the owner |
| CoreLock.Line200BreaksExclusion | lib/bsp/include/atomic.h:190-201 | for every number of cores from two, a run of nothing but corelock_lock and corelock_unlock that ends with two cores holding the lock |
| CoreLock.Machine.Access | lib/bsp/include/atomic.h:135-236 | one access on the mutable words is the step system's move of that core |
| CoreLock.Machine.Execute | lib/bsp/include/atomic.h:135-236 | any interleaving on the mutable words is a run of the step system, and without a stray release two cores never both hold the lock |
| Pll.SpreadKeepsRatio | lib/drivers/sysctl.c:1111-1158 | on both scaling branches the three dividers produce exactly the candidate ratio nfi/nr and stay in the range of the numerator and output divider |
| Pll.CandidateIsSound | lib/drivers/sysctl.c:1095-1176 | a candidate that passes the tests fits registers, VCO and reference limits and realises nfi over the best denominator for it |
| Pll.AcceptedAreSound | lib/drivers/sysctl.c:1095-1194 | every acceptance of the loop does |
| Pll.AcceptancesTighten | lib/drivers/sysctl.c:1111-1191 | from one acceptance to the next the reference divider never grows, the error grows by at most one part in a million (or stays below 1e-16), and an error that is not clearly smaller buys a larger output divider |
| Pll.FoundIffEligible | lib/drivers/sysctl.c:1095-1198 | the search comes back empty if and only if no numerator offers a candidate with an error below the tolerance |
| PllOffers.OfferIsCandidate | lib/drivers/sysctl.c:1095-1176 | what the loop considers for a numerator are exactly the dividers described without it: the nearest denominator, the reference limit, its greatest divisor up to the cap, and the two ways of spreading, in whole numbers |
| PllOffers.SearchTurn | lib/drivers/sysctl.c:1095-1194 | one turn keeps what the search holds unless the numerator offers dividers that beat it: an unmultiplied numerator, no greater reference divider, and a clearly smaller error or a greater output divider; the first within the limit is taken |
| PllOffers.FirstOfferSucceeds | lib/drivers/sysctl.c:1095-1210 | if the first numerator within the limit is off by less than the tolerance minus one part in ten thousand, the search succeeds |
| PllOffers.GrantedIffOffered | lib/drivers/sysctl.c:1082-1210 | a search that succeeds had an offer below the tolerance, and, unless the first offer is at its edge, one that had an offer below the tolerance succeeds |
| Pll.ErrorMeaning | lib/drivers/sysctl.c:1106-1109 | the recorded error is the relative deviation of the candidate ratio from the request |
| Pll.DividersMeaning | lib/drivers/sysctl.c:944-994 | the output of dividers in proportion nfi/nr is the input frequency times nfi/nr |
| Pll.OutputError | lib/drivers/sysctl.c:1095-1209 | the output frequency of sound dividers is off the request by exactly the request times the error, and at least 1/16 of the minimal VCO frequency |
| Pll.FindDivisor | lib/drivers/sysctl.c:1114-1120 | the inner loop finds the greatest divisor of nr up to the cap |
| Pll.Choose | lib/drivers/sysctl.c:1113-1158 | the two scaling branches and their continues, as the specification spreads a candidate |
| Pll.InLimits | lib/drivers/sysctl.c:1160-1176 | true exactly if registers, VCO and reference limits are respected |
| Pll.Try | lib/drivers/sysctl.c:1095-1191 | one pass of the loop takes its candidate exactly if it improves on the last acceptance |
| Pll.Search | lib/drivers/sysctl.c:1082-1210 | the loop returns the last acceptance, sound and clearly below the tolerance, or nothing, and nothing at all if no numerator is eligible |
| Pll.ReadBack | lib/drivers/sysctl.c:944-994 | an error below the tolerance puts the truncated frequency within freq/64 + 1 of the request |
| Pll.Sysctl.InputFor | lib/drivers/sysctl.c:996-1038 | the input frequency of the chosen source, or a refusal |
| Pll.Sysctl.Feeds | lib/drivers/sysctl.c:944-1038 | the first two PLLs are fed by the oscillator alone, and the third by it or by what is read back of one of the others, for requests and for its own read-back |
| Pll.Sysctl.SetFreq | lib/drivers/sysctl.c:996-1265 | a refusal changes no register; otherwise only the addressed PLL changes, its fields fit and respect the limits, and the frequency read back is positive and within freq/64 + 1 of the request; it refuses if and only if the source is refused or the search has nothing below the tolerance |
| PllOffers.SetFreq | lib/drivers/sysctl.c:996-1265 | a request that is granted had an offer below the tolerance, and unless the first offer is at its edge a request with such an offer is granted |
| PllOffers.Set806 | lib/drivers/sysctl.c:1082-1265 | 806 MHz from the oscillator is granted exactly, with reference divider 1, multiplier 62 and output divider 2 |
| PllOffers.EdgeOffer | lib/drivers/sysctl.c:1095-1176 | for the refused request, numerator 49 offers dividers 3, 49 and 1 with an error below 0.005 |
| PllOffers.RefusedAtTheEdge | lib/drivers/sysctl.c:1082-1210 | PLL2 is not set to 1056507936 Hz from a PLL0 at 65 MHz |
| Plic.RunInv | lib/drivers/plic.c:161-205 | in every reachable state each frame's saved threshold and mie are those below it, claimed sources lie above the threshold at entry, the hart's registers are those of the top frame, and claims balance completions |
| Plic.PrioritiesIncrease | lib/drivers/plic.c:161-205 | from bottom to top of the handler stack the priorities of the claimed sources strictly increase and each exceeds the threshold its handler saved |
| Plic.LevelsClimb | lib/drivers/plic.c:180-184 | frame i runs at least i levels above the base threshold |
| Plic.DepthIsBounded | lib/drivers/plic.c:161-205 | the stack is never deeper than the number of priority levels above the base threshold |
| PlicNesting.CallbackIsOpen | lib/drivers/plic.c:180-190 | in every reachable state with a callback on top, interrupts are open, timer and software interrupts are masked, external ones are as outside all handlers, and the threshold is the priority of the running source, above the base threshold |
| PlicNesting.PreemptsIffUrgent | lib/drivers/plic.c:161-190 | in such a state a trap pushes a frame if and only if a claimable request is of a higher priority than the running source and external interrupts are enabled |
| PlicNesting.DepthIsReached | lib/drivers/plic.c:161-205 | for every base threshold some run of a hart that takes external interrupts reaches the bound on the depth |
| Plic.ClaimsAreCompleted | lib/drivers/plic.c:180-193 | every claim is completed exactly once: claims are completions plus the handlers in progress, no source is in progress twice, and only an ignored completion leaves a gateway closed |
| Plic.NoZeroClaim | lib/drivers/plic.c:173-180 | the claim register never answers "no source" to a handler of the hart that owns its sources |
| Plic.BestIsLowest | lib/drivers/include/plic.h:231-236 | among requests of the same priority a claim returns the lowest source |
| Plic.ReturnRestores | lib/drivers/plic.c:178-204 | when a handler returns, threshold and mie equal their values at its entry |
| Plic.WithoutDisableNothingIsLost | lib/drivers/plic.c:77-105 | if no source is disabled during the run, no completion is ignored and every gateway is open again once the stack is empty |
| PlicLoss.NothingLostIff | lib/drivers/plic.c:92-139 | no completion is ignored in any run that disables only sources in a set if and only if the set holds no source, or the threshold, mie or mstatus keep the hart from ever taking an external interrupt |
| PlicLoss.DisabledInCallback | lib/drivers/plic.c:161-193 | the run in which a callback disables its own source and the completion is ignored |
| Plic.HartMachine.HandlerLine | lib/drivers/plic.c:161-205 | one line of the handler on mutable registers is one step of the stack machine |
| Plic.HartMachine.Act | lib/drivers/plic.c:77-139 | every action of hart, devices and software is one step of the stack machine |
| Plic.HartMachine.Execute | lib/drivers/plic.c:161-205 | any run on the mutable registers is a run of the stack machine and keeps its invariant |
| Numerals.DigitsAreCanonical | lib/bsp/printf.c:113-131 | the specified digits are a canonical numeral (digits below the base, no leading zero) worth the number |
| Numerals.CanonicalIsUnique | lib/bsp/printf.c:113-131 | and the only one |
| Numerals.BufferSuffices | lib/bsp/printf.c:301-301 | 20 digits are enough for every width and base that is dispatched |
| Numerals.LeadingPower | lib/bsp/printf.c:119-122 | the first loop ends at the greatest power of the base that the number covers, its multiplication never wraps, and fewer than 20 digits follow |
| Numerals.Ulli2a | lib/bsp/printf.c:113-194 | the buffer receives exactly the canonical numeral, nothing for 0 with precision 0, and never more than 20 characters |
| Numerals.A2u | lib/bsp/printf.c:206-233 | a2u consumes the maximal run of accepted characters and returns its value modulo 2^32 and the position after it |
| Numerals.AcceptedCharacters | lib/bsp/printf.c:206-224 | for base 16 exactly the digits are accepted, for base 10 also 'a' and 'A', and for base 8 also '8' |
| Numerals.ReadBack | lib/bsp/printf.c:206-233 | a printed unsigned int is read back, stopping after it, if and only if the next character's digit value is negative or above the base |
| Fields.Sink.Putf | lib/bsp/printf.c:560-609 | either callback appends to the trace, and the destination holds what of the trace fits and is otherwise untouched |
| Fields.Putchw | lib/bsp/printf.c:235-296 | the field is padding spaces, sign, prefix, zeros, digits, padding spaces, with only one kind of width padding |
| Fields.LayoutLength | lib/bsp/printf.c:235-296 | its length is exactly the larger of the width and sign, prefix and the larger of precision and digits |
| Fields.FieldReadsBack | lib/bsp/printf.c:235-296 | for all flags, widths and precisions, stripping the padding and parsing the field gives the signed number back |
| Format.ScanDirective | lib/bsp/printf.c:315-427 | flags, width, precision and length modifiers are read as the grammar says, from the format or the arguments |
| FormatMeaning.DirectiveMeaning | lib/bsp/printf.c:315-427 | the flags are the maximal run of '-', '0' and '#'; the width and the precision are their numerals or the arguments of asterisks; '#' alone gives the alternate form, '-' or a negative width the left alignment, and '0' zeros unless there is a '-' or a precision that is not negative; z, l and ll give long |
| Format.BoundedLength | lib/bsp/printf.c:508-517 | the length of a string argument under a precision that counts down as an unsigned int |
| Format.PutConversion | lib/bsp/printf.c:428-527 | each conversion character prints what its specification says and consumes its argument |
| FormatMeaning.NumberMeaning | lib/bsp/printf.c:428-503 | a numeric conversion prints the canonical digits of its argument in its base and case, with its sign or prefix, in a field of the directive's width |
| FormatMeaning.ArgumentMeaning | lib/bsp/printf.c:430-503 | the number printed is the argument modulo the size of its type, in the range of that type: signed for %d and %i, unsigned for the others |
| FormatMeaning.TextMeaning | lib/bsp/printf.c:508-521 | %s prints the argument up to its NUL and up to its precision, padded to the width |
| FormatMeaning.CharMeaning | lib/bsp/printf.c:505-527 | %c prints its argument and %% itself; any other character prints nothing |
| FormatMeaning.LayoutIsField | lib/bsp/printf.c:235-296 | a field is its head, its prefix, its zeros and its digits, with the spaces that fill the width on the side of the alignment |
| FormatMeaning.ZeroPaddedExample | lib/bsp/printf.c:298-531 | "%08x" of 26 is 0000001a |
| FormatPieces.FormatOfPieces | lib/bsp/printf.c:298-531 | a format made of texts and directives prints what each prints by itself, one after the other, and the arguments are taken in order: as many for each directive as it has asterisks and conversions that need one |
| FormatPieces.DirectiveFirst | lib/bsp/printf.c:310-527 | a directive in front of any format prints its conversion, and the rest goes on behind it with the arguments it has left and the base of its number |
| Format.TfpFormat | lib/bsp/printf.c:298-531 | for every format and argument list the characters put are exactly the specified text, whatever the sink |
| Format.Vsnprintf | lib/bsp/printf.c:568-586 | returns the full count, stores the first min(count, size-1) characters and a NUL, touches nothing else, and nothing at all for size 0 |
| Format.Vsprintf | lib/bsp/printf.c:611-619 | stores the whole text and a NUL and returns its length |
| Format.BoundedRefinesUnbounded | lib/bsp/printf.c:560-619 | both printers return the same count, and the bounded buffer is the first min(count, size-1) characters of the unbounded one and a NUL, with nothing written from size on |
| Format.PlainTextPrintsItself | lib/bsp/printf.c:304-309 | a format without conversions prints itself |
| Format.ConversionReadsBack | lib/bsp/printf.c:428-503 | any numeric conversion with any flags prints a field that parses back to its argument |
| Format.NumericReadsBack | lib/bsp/printf.c:235-296 | a number's field parses back to it also when the precision defaults |
| Bytes.LoadAfterStore | lib/drivers/aes.c:209-209 | a word stored to memory and loaded again is the same word |
| Bytes.StoreAfterLoad | lib/drivers/aes.c:209-209 | four bytes loaded as a word and stored again are the same bytes |
| Bytes.WordsConcat | lib/drivers/sha256.c:76-85 | the words of two aligned pieces are the words of their concatenation |
| Sha256.ByteSwap64ReversesBytes | lib/drivers/sha256.c:38-43 | the swapped 64-bit number in little-endian memory is the number in big-endian order |
| Sha256.PaddingIsMinimal | lib/drivers/sha256.c:50-50 | the specified padding (FIPS 180-4, section 5.1.1) keeps the message, ends with the length, is the shortest that fills whole blocks, and makes the (len+72)/64 blocks that sha256_init announces |
| Sha256.LastBytesAreBits | lib/drivers/sha256.c:89-111 | the last eight bytes of the padded message are worth the number of its bits modulo 2^64, most significant byte first |
| Sha256.PadLength | lib/drivers/sha256.c:95-97 | the padding length sha256_final computes lies in 1..64 and is one more than the number of zeros |
| Sha256.Context.Init | lib/drivers/sha256.c:45-56 | an empty context, an empty device, and the 16-bit block count |
| Sha256.Context.FlushBlock | lib/drivers/sha256.c:76-85 | a full buffer is sent as its sixteen words in order |
| Sha256.Context.Fill | lib/drivers/sha256.c:65-86 | one pass of the loop appends its bytes to what has been consumed and keeps the device and the bit count in step |
| Sha256.Context.Update | lib/drivers/sha256.c:58-87 | whatever the buffer held, the whole input is appended to what has been consumed, and the device has exactly the full blocks of it |
| Sha256.Context.Final | lib/drivers/sha256.c:89-111 | the consumed bytes become exactly the padded message, nothing stays in the buffer, and the result registers are stored last register first |
| Sha256.StoredAt | lib/drivers/sha256.c:103-110 | bytes 4i to 4i + 3 of the digest in memory are those of result register 7 - i |
| Sha256.HashPieces | lib/drivers/sha256.c:45-111 | however a message is cut into update calls, the device receives the words of the padded message, as many blocks as announced |
| Aes.FeedKeepsBytes | lib/drivers/aes.c:199-251 | the specified word stream is the zero-filled message, and in ECB and CBC exactly as many words as the programmed length has |
| Aes.FeedConcat | lib/drivers/aes.c:336-349 | feeding whole blocks and then the rest is feeding the whole |
| Aes.Device.Init | lib/drivers/aes.c:137-157 | the length register holds the padded length minus one |
| Aes.InputBytes | lib/drivers/aes.c:199-251 | one pass sends exactly the specified word stream of its input |
| Aes.ReadWords | lib/drivers/aes.c:305-310 | words are stored in order, and the number of words sent at each read is recorded and covers the block that is read |
| Aes.ReadTail | lib/drivers/aes.c:311-333 | of the last GCM word only the message's own bytes are stored |
| Aes.ProcessLess80Bytes | lib/drivers/aes.c:253-334 | a chunk is sent completely before any of its output is read, so output over input is harmless; every word of it is read and stored |
| Aes.Process | lib/drivers/aes.c:336-349 | in chunks of 80 bytes the device receives the same words as in one pass over the whole message; the record of reads shows that no output word was awaited before its block was sent; and the output is the device's words in order: the padded length in ECB and CBC, the exact length in GCM, with nothing written behind it, also in place |
| Aes.Run | lib/drivers/aes.c:129-157 | programming the length and processing together, for every message the 32-bit register can hold |
| Rtc.CountIsClosed | lib/drivers/rtc.c:253-268 | day-by-day counting from year 0 agrees with years, leap days and the driver's month table |
| Rtc.WeekDayCountsDays | lib/drivers/rtc.c:270-275 | the formula is the day count modulo 7 if and only if the date is on or after 1 March of year 0 |
| Rtc.WeekDayOfNextDay | lib/drivers/rtc.c:270-275 | the weekday of the next day is one more modulo 7 across all month, leap and century boundaries |
| Rtc.Epoch | lib/drivers/rtc.c:270-275 | 1 January 1970 is a Thursday |
| Rtc.WeekDayFromYearDay | lib/drivers/rtc.c:258-275 | the weekday is that of 1 January moved on by the day of the year |
| Rtc.YearDayCountsDays | lib/drivers/rtc.c:258-268 | the day of the year counts the days since 1 January |
| Rtc.TimerReadsBack | lib/drivers/rtc.c:277-299 | a time that was set is read back with its day of the year |
| Rtc.AlarmReadsBack | lib/drivers/rtc.c:301-324 | an alarm is read back if and only if it is not on a 31st, not in December and in the timer's century |
| Rtc.Clock.SetTm | lib/drivers/rtc.c:85-176 | nothing changes unless every field is acceptable; then the timer runs from the given time |
| Rtc.Clock.SetAlarmTm | lib/drivers/rtc.c:178-251 | the same checks; only the alarm registers change, and the century is dropped |
| Rtc.Clock.Set | lib/drivers/rtc.c:326-341 | a date and time with its computed weekday is set, or refused without a change; every month outside 1..12 is refused, whatever is read behind the month table |
| Rtc.TakenYears | lib/drivers/rtc.c:85-341 | a real date at any time of day is taken if and only if its year is at most 3199 |
| Rtc.RefusedTimes | lib/drivers/rtc.c:85-341 | a day, month, hour, minute or second out of range is refused |
| Rtc.SetThenGet | lib/drivers/rtc.c:277-341 | every real date from year 1 to 3199 is accepted, put into the registers field by field with its true weekday and its century, and read back field by field with the weekday and the day of the year |
| Misaligned.OffsetIsSignExtension | lib/bsp/syscalls.c:483-484 | the decoded offset is the architecture's if and only if the immediate is not negative, and otherwise the complement of its low ten bits |
| Misaligned.DecodeInvertsLoad | lib/bsp/syscalls.c:462-481 | decoding an encoded load gives its registers, size, signedness and offset |
| Misaligned.DecodeInvertsStore | lib/bsp/syscalls.c:554-572 | decoding an encoded store gives its registers, size and offset |
| Misaligned.LoadSizes | lib/bsp/syscalls.c:462-481 | lb, lh, lw and ld move 1, 2, 4 and 8 bytes with the sign and lbu, lhu and lwu without; flw and fld move 4 and 8 to the other file |
| Misaligned.StoreSizes | lib/bsp/syscalls.c:554-579 | sb, sh, sw and sd move 1, 2, 4 and 8 bytes, fsw and fsd 4 and 8 of the other file, and the four codes that no store has 16 to 128 |
| Misaligned.OthersExit | lib/bsp/syscalls.c:471-480 | exactly the opcodes of loads and of stores are decoded |
| Misaligned.NextInstruction | lib/bsp/syscalls.c:518-519 | execution resumes at the four bytes behind the instruction |
| Misaligned.Gather | lib/bsp/syscalls.c:488-489 | the loop collects the addressed bytes, lowest first, and zeros above |
| Misaligned.GatheredIsLoaded | lib/bsp/syscalls.c:492-509 | the collected value, or its sign extension, is what the architecture's load delivers |
| Misaligned.LoadedIsUnique | lib/bsp/syscalls.c:488-509 | there is only one such value |
| Misaligned.Scatter | lib/bsp/syscalls.c:585-586 | the loop writes exactly the addressed bytes, up to 128 of them |
| Misaligned.StoredIsLoaded | lib/bsp/syscalls.c:488-509 | a load of what was stored delivers its low bytes, sign- or zero-extended |
| Misaligned.Hart.HandleLoad | lib/bsp/syscalls.c:441-523 | the destination register of the right file gets the loaded value, nothing else changes, execution resumes behind the instruction, and any other instruction exits without a change |
| Misaligned.Hart.HandleStore | lib/bsp/syscalls.c:534-595 | exactly the addressed bytes change to the source register's, for every size code (beyond eight bytes to whatever the shift gives), and any other instruction exits without a change |
| TrapFrame.AddressAgreesIff | lib/bsp/syscalls.c:483-486 | with a saved frame, the handler's address is the architecture's if and only if the base is neither x0 nor the stack pointer and the offset below 2048, or the base is x0 and its slot makes up for the difference |
| TrapFrame.ZeroBase | lib/bsp/syscalls.c:486-486 | for a base of x0 and an offset below 2048 it is if and only if the slot of x0 holds 0 |
| TrapFrame.StackPointerBase | lib/bsp/crt.S:132-135 | for a stack-pointer base it never is, whatever the offset |
| TrapFrame.LoadValueIsLoaded | lib/bsp/syscalls.c:488-509 | the load value of the architecture in terms of the addressed bytes |
| TrapFrame.LoadAgreesIff | lib/bsp/syscalls.c:441-523 | the registers restored after an emulated integer load are those after the load of the RISC-V unprivileged architecture 20191213 (section 2.6), on every memory, if and only if it goes to x0, or to a register other than the stack pointer and the addresses agree |
| TrapFrame.DataAgreesIff | lib/bsp/syscalls.c:580-583 | the stored bytes are the register's if and only if it is neither x0 nor the stack pointer, or it is x0 and those bytes of its slot are 0, or it is the low byte of the stack pointer |
| TrapFrame.StoreAgreesIff | lib/bsp/syscalls.c:534-595 | memory after an emulated integer store is that after the architecture's, on every memory, if and only if the addresses and the stored bytes agree |
| TrapFrame.StoreOfZeroWritesStaleByte | lib/bsp/syscalls.c:577-586 | with a 1 in the slot of x0, a store of x0 writes a 1 where the architecture writes a 0 |
| TrapFrame.EmulateLoad | lib/bsp/syscalls.c:441-523 | the load handler on an encoded load that meets the condition leaves the frame of the architecture's registers |
| TrapFrame.EmulateStore | lib/bsp/syscalls.c:534-595 | the store handler on an encoded store that meets the condition leaves the architecture's memory |
| Misaligned.StoreThenLoad | lib/bsp/syscalls.c:441-595 | a store and a load through the same base and immediate, of either sign, give back the extended low bytes of the stored register |
| Playback.AllHeardIff | lib/drivers/i2s.c:397-498 | for every format, number of samples and frame size: what a call sends is, for all data, the value of every sample of every track in order if and only if there is none, or no conversion is needed, or there is less than a frame of two four-byte tracks, or the frames divide the samples and the conversion's number is that of the one track (or the two 24-bit ones) |
| Playback.HeardIsAudio | lib/drivers/i2s.c:397-498 | under that condition the words sent are the samples' values, for any data |
| Playback.TailLost | lib/drivers/i2s.c:490-495 | unless two tracks have four bytes each, a last partial frame is not heard as it should for some data |
| Playback.FrameLost | lib/drivers/i2s.c:402-435 | a format that is not converted faithfully loses a sample for some data |
| Playback.PackedTracks | lib/drivers/i2s.c:427-433 | one sample of four 8-bit tracks becomes one word |
| Playback.TailInsideIff | lib/drivers/i2s.c:490-495 | the transfer of a last partial frame stays in the caller's buffer if and only if eight bytes for each of its samples are no more than those samples and the bytes behind the last whole sample |
| Pcm.FramesAreSamplesIff | lib/drivers/i2s.c:397-489 | for every format, frame size and number of frames: whatever the data, the frames are made of the bytes at the samples' own places if and only if there is no frame, a frame is at most one sample, or the conversion's step is the width of a sample; it does not say that the values are right |
| Pcm.FramesAreSamples | lib/drivers/i2s.c:483-489 | so the cut into frames is invisible for formats in step |
| Pcm.FramesStayInsideIff | lib/drivers/i2s.c:427-433 | what is converted depends on the frames' own bytes alone if and only if the step is not above the width of a sample |
| Pcm.SpanIsProduct | lib/drivers/i2s.c:454-454 | the bytes of n samples are n * (bits / 8) * tracks |
| Pcm.SamplesFit | lib/drivers/i2s.c:444-444 | the sample count is the number of whole samples in the buffer |
| I2s.Dma.SendBuffer | lib/drivers/i2s.c:388-395 | a transfer of the given words is started, and not while the one before may be in progress, which the channel records |
| I2s.ParseVoice | lib/drivers/i2s.c:397-436 | the fill stays in its half, which no transfer may be reading, and holds the converted samples; what a pending transfer reads is unchanged |
| I2s.Sample | lib/drivers/i2s.c:404-434 | the 16-, 24- and 32-bit cases each fetch the bytes at their place, and for a faithful format the two words are the values of the sample's tracks |
| I2s.PlayFrame | lib/drivers/i2s.c:483-489 | a frame is converted into a half that is not in flight and sent |
| I2s.PlayConverted | lib/drivers/i2s.c:476-497 | the words sent are the conversion of the whole frames in order and the raw words of a last partial one, the half being filled is never in flight, and the freed buffer may still be read if and only if there was a frame and no partial one |
| I2s.SendDirect | lib/drivers/i2s.c:454-455 | a direct transfer continues where the last one ended |
| I2s.PlayDirect | lib/drivers/i2s.c:449-475 | the transfers stay inside the data and concatenate to all of it, in order and without gaps |
| I2s.Play | lib/drivers/i2s.c:439-498 | for all sample sizes from a byte and numbers of tracks: the words sent are the specified output, which under the exact condition are the values of all whole samples; 16- and 32-bit stereo is played word for word; the last transfer of a converted format stays in the buffer under its exact condition; no transfer is started before the one before is over, and each delivers what its buffer held at the start |
| CircularList.ListAdd | lib/drivers/dmac.c:591-598 | inserting between two neighbours anywhere in a ring gives the ring with the node there, touching only the three nodes |
| CircularList.ListAddTail | lib/drivers/dmac.c:600-603 | the list grows by the node at its end, touching only the node, the head and the last node |
| CircularList.InitListHead | lib/drivers/dmac.c:605-609 | an empty ring |
| CircularList.WalksAreTheList | lib/drivers/dmac.c:591-609 | walking forward from the head visits the list in order, walking backward visits it in reverse |
| CircularList.LinkAll | lib/drivers/dmac.c:600-609 | from an initialised head, any sequence of distinct nodes is built up in order |
| Kpu.StepKeepsInv | lib/drivers/kpu.c:21-162 | every step of every core keeps the invariant: runs exclude each other, the context agrees with the request as far as it is set, the layers in memory are the caller's with the last one marked, and every completed run is pending or answered exactly once |
| KpuStream.LayersInOrder | lib/drivers/kpu.c:29-162 | in every run in which no call of kpu_continue overlaps another or a start, and no layer is pushed before the remaining layers are set, the FIFO is right in every state: nothing before that, and then the twelve-word encodings of the task's layers, each once and in order, one for each call that has returned, with the two marks on the last |
| KpuWords.FifoWords | lib/drivers/kpu.c:48-146 | in those runs word 12j + k of the FIFO is register k of the caller's layer j, but for the last layer, whose interrupt and output registers have bit 0 set and are otherwise the caller's |
| KpuWords.WordsOfTask | lib/drivers/kpu.c:48-146 | so are the words of every prefix of a prepared task |
| KpuCores.RightIffNothingEarly | lib/drivers/kpu.c:29-162 | if all accepted starts are on one core, the FIFO is right in every state of a run if and only if no layer is pushed between the swap and the setting of the remaining layers |
| KpuCores.OneCoreRuns | lib/drivers/kpu.c:21-162 | in such runs the handlers take turns and nothing else disturbs a call of kpu_continue |
| KpuPrograms.RightIffOneCore | lib/drivers/kpu.c:29-162 | in every run over a set of requests in which no layer is pushed early, the FIFO is right in every state if and only if all requests are made on one core |
| KpuPrograms.LastLayerTwice | lib/drivers/kpu.c:40-81 | for any two requests on two cores, a run in which both cores find the last layer left and push it |
| KpuPrograms.EarlyInterrupt | lib/drivers/kpu.c:151-157 | for every request a run of it, twice in succession on one core, with a layer pushed early: no preparation of the structure prevents it |
| KpuPrograms.RightIffOneStart | lib/drivers/kpu.c:133-157 | whatever the requests, the FIFO is right in every state of all runs with at most n accepted starts if and only if n is at most 1 |
| KpuCores.NoSecondStart | lib/drivers/kpu.c:133-162 | while a run is in progress no other start is accepted, whatever happens, until its output transfer has ended |
| KpuCallback.CallbackIsOwn | lib/drivers/kpu.c:21-27 | the callback called is the finished run's own if and only if the one in place at that moment is: the last accepted request's, the one that came with its structure while only that is copied, or the request's before |
| KpuCallback.OwnIff | lib/drivers/kpu.c:21-27 | in every run over a set of requests every callback called is the finished run's own if and only if all requests are made on one core, or all callbacks passed and all callbacks in the structures are one |
| KpuCallback.CalmRunsAreOwn | lib/drivers/kpu.c:21-27 | whatever the callbacks, they are each run's own if no structure's callback is copied while a completion still has to read its own |
| KpuCallback.OvertakenBySameCallback | lib/drivers/kpu.c:21-151 | a run of two tasks with the same callback on two cores, in which the first is answered by what stands in the second's structure |
| KpuDriver.Context.KpuRun | lib/drivers/kpu.c:133-162 | without interruption, kpu_run is refused exactly while a run is in progress, and otherwise leaves a context that is the caller's in every field, an empty FIFO and the input transfer pending |
| KpuDriver.Context.NextLine | lib/drivers/kpu.c:138-159 | each line of it on the mutable context is one step of the system |
| KpuDriver.Context.RunLine | lib/drivers/kpu.c:40-82 | each line of kpu_continue on the mutable context and the FIFO is the system's |
| KpuDriver.Context.KpuContinue | lib/drivers/kpu.c:29-84 | undisturbed, it pushes the twelve words of the next layer, if any is left, and advances |
| KpuDriver.Context.InputTransferDone | lib/drivers/kpu.c:95-121 | undisturbed, the handler of the input transfer waits for the output and serves one layer |
| KpuDriver.Context.LayerInterrupt | lib/drivers/kpu.c:29-84 | undisturbed, the accelerator's interrupt serves one layer |
| KpuDriver.Context.RunAllDone | lib/drivers/kpu.c:21-23 | the completion frees the context in one step |
| PinMap.ApplyKeepsUnique | lib/drivers/fpioa.c:5241-5360 | one call keeps every function but the reserved one on at most one pin |
| PinMap.EveryRunKeepsUnique | lib/drivers/fpioa.c:5241-5360 | so does every sequence of calls with whatever arguments |
| PinMap.FoundWhereSet | lib/drivers/fpioa.c:5341-5398 | after a function is set on a pin the lookup finds that pin, from any starting state; for the reserved function if and only if no lower pin has it |
| PinMap.Effect | lib/drivers/fpioa.c:5241-5360 | a call on pins 0 to 47, with functions 0 to 255 or pulls 0 to 2, puts the function's entry or the one pull into the pin's register, and any other call changes nothing |
| PinMap.OthersKeepTheirs | lib/drivers/fpioa.c:5352-5357 | only the pin itself and the pins that lose the function change |
| PinMap.PullsMoveNothing | lib/drivers/fpioa.c:5241-5270 | setting a pull moves no function |
| PinMap.PullStays | lib/drivers/fpioa.c:5241-5289 | a pull is read back until the pin's own pull or function is set again, or another pin takes the function |
| PinMap.Fpioa.SetFunction | lib/drivers/fpioa.c:5341-5360 | the loop over the register file in place takes the function from every other pin and gives it to the one named, or refuses without a change |
| PinMap.Fpioa.SetIoPull | lib/drivers/fpioa.c:5241-5270 | only the pulls of the named pin change, or nothing on a refusal |
| PinMap.Fpioa.GetIoByFunction | lib/drivers/fpioa.c:5388-5398 | the lowest pin with the function, or -1 |
| PinMap.Fpioa.Execute | lib/drivers/fpioa.c:5241-5360 | any sequence of calls on the register file keeps functions unique |

## Left out

- Weak memory: all concurrent code is modelled under sequential consistency.
- Busy-wait loops on hardware flags (DMA done, PLL lock, FIFO full): the model continues after the wait; where the
  wait itself is a protocol (barrier, locks) it is modelled step by step.
- Fairness of a scheduler: the barrier's progress is counted in effective steps of the run, not in time.
- 32-bit overflow of the semaphore and lock counters and of field widths near the ends of int: those values are
  unbounded integers here.
- Pll.Search: doubles are real numbers and rint, floor and ceil are exact, so rounding in the last bit is not
  captured; a denominator beyond the range of int, which only requests of a few hertz produce, is not truncated.
- Pll.Sysctl.SetFreq: requests above the highest VCO frequency are outside the contract, because the C code then
  divides by zero in a remainder; the 32-bit overflow of the frequency read back from arbitrary register contents is
  not modelled.
- PllOffers.GrantedIffOffered: when the first offer within the limit is off by the tolerance to one part in ten
  thousand, which way the search goes is not characterised.
- Plic.NoZeroClaim: assumes that one hart owns its sources; a claim raced by the other hart is not modelled.
- The local-interrupt handlers, timers and the assembly trap entry around handle_irq_m_ext.
- Format.TfpFormat: arguments are a typed sequence; va_list mechanics, and arguments of the wrong kind or missing
  ones (undefined in C), are replaced by 0 or the empty string. The base that %#s sees is whatever the last number
  left behind, and a parameter before the first one.
- The console printer and its lock: only the two string printers are modelled around the format interpreter.
- The hash, cipher, network and FFT computations: they happen in hardware and are uninterpreted or absent.
- Aes.Device.Init: keys, initial vectors, authenticated data and tags are plain register writes; a message whose
  padded length exceeds the 32-bit register is not covered.
- Aes.Process: output either is the input buffer or does not overlap it.
- Sha256.Context.Final: the contents of the result registers are a parameter; the reset in sha256_init is taken to
  empty the device.
- Rtc.Clock.Set: the running of the clock between setting and reading is not modelled; what C reads behind the month
  table, for a month that is refused afterwards, is a parameter.
- Misaligned.Hart.HandleStore: for a size code above 3, which no store instruction has, the bytes that C takes from an
  undefined shift are a parameter.
- TrapFrame.LoadAgreesIff: floating-point loads are emulated but not compared with the architecture, which boxes
  narrow values; the reserved size code 7 is left out of the comparison.
- TrapFrame.StoreAgreesIff: memory is separate from the frame, so a store into the frame itself is not modelled.
- I2s.Play: sample sizes below 8 bits, no tracks and empty frames, for which C divides by zero, are excluded;
  32-bit loop counters do not wrap.
- KpuDriver.Context.KpuRun: a task without layers, for which C addresses the element before the array, is excluded; the
  registers that are set once per run are left out.
- Kpu.StepKeepsInv: kpu_run copies the structure in three steps, in the order of the fields the model has; it is
  called by the main program of a core or by a callback, not by a handler of higher priority that interrupts the
  accelerator's; the priorities of its interrupts stay as it sets them; and the compiler reads the context where the
  lines of C do.
- PinMap.Fpioa.SetFunction: the 256-entry table is represented by its property that entry f selects function f, with
  arbitrary pad attributes.
- Register plumbing without an algorithm: gpio, uart, i2c, spi, dvp, pwm, watchdog, fft, timers and most setters.
- Start-up code, logging, the heap, file descriptors and build files.
