# Fusion core, verified

A Dafny model of the parts of the Fusion C++ library whose behaviour is hardest to see from the code, with proofs over
all inputs, all runs or all interleavings. `dafny verify dfyconfig.toml` checks everything.

**Hashes and HMAC** (`Bytes`, `Words`, `Sha256`, `Sha1`, `Md5`, `MessageDigest`, `Hmac`). The standards' round loops
are written as functions; the unrolled, register-renamed block functions are methods on arrays, proved equal to them.
What the two have in common, rotations, byte order, sigma functions and constants, is pinned apart from both: bit by
bit, as numbers, and by the roots the constants come from. The streaming object carries a ghost `message`: its
invariant says the digest words are the fold over the whole blocks of the message and the buffer is the rest.
`Process` is stated under the assertion the code makes in front of its tail copy, and that assertion is shown to be
exactly the condition under which the copy is right.

**Thread pool** (`ThreadPoolQueue`, `ThreadPool`, `ThreadPoolSafety`, `ThreadPoolCalls`, `ThreadPoolLate`,
`ThreadPoolProgress`). Each critical section, each notification and each completer call is one step of a state
machine, and submitters, cancellers, workers and the destructor interleave freely, with spurious wake-ups. The
invariant gives every task ever submitted one place, and every completer call one caller. The class `SharedQueue`
holds the code of the critical sections. A task function calls its completer exactly once
(libraries/core/source/public/Fusion/Impl/Thread.h:248-267). The destructor's last loop walks the live queue by an
iterator and without the mutex, and calls may overlap it. So "exactly once" is not a property of the code; it holds in
runs that are `Quiet`, where no `Cancel` call is at work when the workers have been joined and no `SubmitTask` or
`Cancel` call takes the mutex after. What happens in the other runs is stated exactly: at most two calls, two when a
`Cancel` and the loop both made one, none for a task inserted behind the iterator and left there. Each of these does
happen.

**Paths** (`PathSpec`, `PathUtil`, `PathLaws`). The specification is a stack of segments; the loop that erases from
the string while moving two offsets is proved to leave what the stack spells. `Join` treats a trailing backslash as a
separator although `Normalize` does not, so the laws one would expect of `Join` fail for directories whose name ends
in a backslash; each law is stated with the condition under which it holds, both ways. The laws of `Normalize` are
stated on the text of paths: what may be left out of one, and where one that starts with a dot or a tilde goes.

**Argument parser** (`ArgparseSpec`, `ArgparseLaws`, `Argparse`). A parser tree is a value; the mutable state is that
of the root object: the found-set, the chosen command of each parser (keyed by its path in the tree), and a log of
events that exists for the proofs. One induction shows that the log accounts for every run, another that every failure
is the one the log leads to; the promises are read off the log. Which tokens an argument answers to and which text
they give it is stated by how they are spelled.

**Random numbers** (`RandomSpec`, `RandomCycles`, `RandomPolynomials`, `RandomJumps`, `RandomPeriod`, `Random`) and
**memory codec** (`MemoryCodec`). Explicit inverses for the mixer and for each generator step; cycles by counting
states; the full period of the 32-bit generator, by squaring polynomials in one step to look 2^32 steps ahead and
ruling out the five largest divisors of the period; range reduction over machine words, draw by draw and by counting
draws; the writer and reader as inverses over lists of fields.

Words are `bv8` to `bv64`; counters that wrap are reduced explicitly. The machine is little-endian, as in the branches
modelled. Assertions of the source appear as preconditions.

## Model

| member | source | states |
|---|---|---|
| `Bytes.EndianIs` | libraries/core/source/public/Fusion/Endian.h:43-48 | A big-endian and a little-endian word are the numbers that its four bytes spell from either end |
| `Words.RotateRightBit` | libraries/core/source/SHA256.cpp:29-32 | Bit j of a word rotated right by c is bit (j + c) mod 32 of the word, for every c and j |
| `Words.RotateLeftBit` | libraries/core/source/SHA1.cpp:44-47 | Bit j of a word is bit (j + c) mod 32 of it rotated left by c |
| `Words.SwapLoads` | libraries/core/source/public/Fusion/Endian.h:43-48 | The recursive byte swap of a word loaded by a little-endian machine is the big-endian reading of its four bytes |
| `Sha256.F1IsSigmaPlusChoice` | libraries/core/source/SHA256.cpp:34-39 | The first mixing function is Σ1 plus the choice function of FIPS 180-4 |
| `Sha256.F2IsSigmaPlusMajority` | libraries/core/source/SHA256.cpp:41-46 | The second, with its rewritten majority, is Σ0 plus the majority function of FIPS 180-4 |
| `Sha256Spec.ChBit` | libraries/core/source/SHA256.cpp:34-39 | Bit by bit the first word of the choice function selects between the other two |
| `Sha256Spec.MajBit` | libraries/core/source/SHA256.cpp:41-46 | Bit by bit the majority function is set where at least two of its words are |
| `Sha256Spec.SigmaBits` | libraries/core/source/SHA256.cpp:34-111 | Bit j of each of the four sigma functions is the sum of three given bits of the word, one of them absent beyond the end in the two that shift |
| `Sha256Spec.InitialHashIs` | libraries/core/source/SHA256.cpp:331-348 | Each initial word holds the first 32 binary places of the square root of its prime |
| `Sha256Spec.KIsCubeRoot` | libraries/core/source/SHA256.cpp:85-212 | Each of the 64 round constants holds the first 32 binary places of the cube root of its prime |
| `Sha256.Line` | libraries/core/source/SHA256.cpp:85-102 | One unrolled line, which updates two registers in place, is one round on shifted registers |
| `Sha256.FourLines` | libraries/core/source/SHA256.cpp:85-88 | Four renamed lines are four rounds, for every row of the constant table |
| `Sha256.Extend` | libraries/core/source/SHA256.cpp:104-111 | The in-place schedule words, with the rotations and shifts written out, are the standard message schedule |
| `Sha256.LoadWords` | libraries/core/source/SHA256.cpp:70-80 | The swapped loads give the first sixteen schedule words |
| `Sha256.ProcessBlock` | libraries/core/source/SHA256.cpp:56-221 | For every chaining value and block the 64 unrolled lines with their interleaved schedule compute the round loop of section 6.2.2 of FIPS 180-4 |
| `Sha1.PhaseFIsF` | libraries/core/source/SHA1.cpp:29-42 | The rewritten boolean functions are Ch, Parity and Maj of their round ranges |
| `Sha1Spec.FBit` | libraries/core/source/SHA1.cpp:29-42 | Bit by bit the round function chooses, adds, takes the majority and adds again over its four ranges |
| `Sha1Spec.KIsRoot` | libraries/core/source/SHA1.cpp:84-126 | The four round constants are the square roots of 2, 3, 5 and 10, cut to 30 binary places |
| `Sha1Spec.InitialHashIs` | libraries/core/source/SHA1.cpp:254-258 | The five initial words are the counting nibbles as a little-endian machine loads them |
| `Sha1.FiveLines` | libraries/core/source/SHA1.cpp:84-126 | Five renamed lines are five rounds on shifted registers |
| `Sha1.Extend` | libraries/core/source/SHA1.cpp:78-82 | The loop over the word array computes the rotated schedule for all eighty words |
| `Sha1.ProcessBlock` | libraries/core/source/SHA1.cpp:57-134 | For every chaining value and block the four loops of renamed groups compute section 6.1.2 of FIPS 180-4 |
| `Md5.PhaseFIsAuxiliary` | libraries/core/source/MD5.cpp:29-50 | The four rewritten functions are F, G, H and I of RFC 1321 |
| `Md5Spec.AuxiliaryBit` | libraries/core/source/MD5.cpp:29-50 | Bit by bit what the four auxiliary functions choose, add and combine |
| `Md5Spec.InitialHashIs` | libraries/core/source/MD5.cpp:300-303 | The four initial words are the bytes that section 3.3 of RFC 1321 lists, low-order first |
| `Md5.FourLines` | libraries/core/source/MD5.cpp:78-85 | Four renamed lines are four operations on shifted registers, with the word order, constants and shifts of their round |
| `Md5.ProcessBlock` | libraries/core/source/MD5.cpp:65-182 | For every chaining value and block the four unrolled rounds compute section 3.4 of RFC 1321 |
| `MessageDigestSpec.ZeroCountIsLeast` | libraries/core/source/SHA256.cpp:228-241 | The padding has the fewest zeros that bring the padded length to a multiple of the block |
| `MessageDigestSpec.PaddedMessage` | libraries/core/source/SHA256.cpp:223-283 | The padded message is the message, 0x80, zeros and, in the last eight bytes, the number of its bits modulo 2^64 in the byte order of the kind, and it is the shortest such text of whole blocks |
| `MessageDigestSpec.LengthFieldIs` | libraries/core/source/SHA256.cpp:263-283 | The length field spells the bit count, from the high end in SHA and from the low end in MD5 |
| `MessageDigestSpec.OutputIs` | libraries/core/source/SHA256.cpp:302-328 | Each word of the hash is written out as the four bytes that spell it, in the byte order of the kind |
| `MessageDigest.PaddedLength` | libraries/core/source/SHA256.cpp:228-241 | The bit arithmetic puts the length field after the marker and exactly that many zeros: at 56, or at 120 when the tail is too long |
| `MessageDigest.StoreLength` | libraries/core/source/SHA256.cpp:263-283 | The eight stores write the 64-bit bit count, big-endian, or little-endian for MD5, and touch nothing else |
| `MessageDigest.BitCount` | libraries/core/source/SHA256.cpp:263-264 | Counting modulo 2^64 as the object does gives the bit length of the whole message modulo 2^64 |
| `MessageDigest.PaddingFits` | libraries/core/source/SHA256.cpp:223-283 | Marker, zeros and length laid over two blocks are the tail followed by the padding of section 5.1.1 of FIPS 180-4 |
| `MessageDigest.MDHash.LayOut` | libraries/core/source/SHA256.cpp:223-283 | The buffer, or the buffer and the overflow block, hold exactly the padded tail |
| `MessageDigest.MDHash.ProcessBuffer` | libraries/core/source/SHA256.cpp:223-293 | The running hash becomes the fold over the padded message; the buffered tail is preserved |
| `MessageDigest.MDHash.Reset` | libraries/core/source/SHA256.cpp:331-348 | The literal words of each kind are its initial hash: the object represents the empty message again |
| `MessageDigest.MDHash.ProcessBlock` | libraries/core/source/SHA256.cpp:56-221 | Each of the three block functions is the compression function of its kind |
| `MessageDigest.MDHash.FoldBuffer` | libraries/core/source/public/Fusion/Impl/Hash.h:227-231 | Folding a full buffer keeps the object equal to the fold of what it has seen, counter included |
| `MessageDigest.MDHash.TakeBlock` | libraries/core/source/public/Fusion/Impl/Hash.h:208-232 | One turn of the loop moves the message forward by the bytes that fill the block |
| `MessageDigest.MDHash.KeepTail` | libraries/core/source/public/Fusion/Impl/Hash.h:233-245 | The rest goes to the buffer and to nowhere else |
| `MessageDigest.MDHash.Process` | libraries/core/source/public/Fusion/Impl/Hash.h:199-246 | The message grows by exactly the input, for every call that meets the assertion in front of the tail copy |
| `MessageDigest.TailCopyAppendsIffMayProcess` | libraries/core/source/public/Fusion/Impl/Hash.h:233-245 | Without that assertion the tail copy appends if and only if the call finds the buffer empty, fills it or brings nothing |
| `MessageDigest.MDHash.Emit` | libraries/core/source/SHA256.cpp:302-328 | The digest bytes are written in the order of the kind and every digest word is put back |
| `MessageDigest.MDHash.Finish` | libraries/core/source/SHA256.cpp:295-329 | Writes the digest of the message, cut to the span, and leaves the object as it was, so a second call agrees |
| `MessageDigest.HashChunks` | libraries/core/source/public/Fusion/Impl/Hash.h:199-246 | Every sequence of admitted `Process` calls followed by `Finish` gives the digest of the concatenated inputs |
| `Hmac.LoadKey` | libraries/core/source/HMAC.cpp:31-43 | The key, or its digest when longer than a block, padded with zeros to a block |
| `Hmac.FlipsPad` | libraries/core/source/HMAC.cpp:58-61 | Flipping the buffer in place turns the inner pad into the outer pad |
| `HmacSpec.HmacIs` | libraries/core/source/HMAC.cpp:21-67 | The HMAC is the digest of the block of key bytes XORed with 0x5c followed by the digest of the block XORed with 0x36 followed by the text |
| `Hmac.HMAC` | libraries/core/source/HMAC.cpp:21-67 | For every key, key length and message the result is the HMAC of section 2 of RFC 2104 |
| `ThreadPoolQueue.SubmittedKeeps` | libraries/core/source/Thread.cpp:229-238 | A submission keeps the queue in priority-then-id order and the index exact |
| `ThreadPoolQueue.UrgentIsRankedHigher` | libraries/core/source/public/Fusion/Thread.h:194-201 | The enumerators the multimap compares are numbered by urgency: High over Normal over Low |
| `ThreadPoolQueue.PoppedKeeps` | libraries/core/source/Thread.cpp:86-94 | Popping keeps order and index |
| `ThreadPoolQueue.ExtractedKeeps` | libraries/core/source/Thread.cpp:166-175 | Extracting an index entry leaves an index that lacks exactly that id, and the iterator leads to the task with that id |
| `ThreadPoolQueue.ErasedKeeps` | libraries/core/source/Thread.cpp:180-180 | Erasing through the iterator makes the index exact again |
| `ThreadPoolQueue.SharedQueue.PopFront` | libraries/core/source/Thread.cpp:70-95 | Takes a High task if one is queued and a Low one only if all are Low, and of one priority the oldest |
| `ThreadPoolQueue.SharedQueue.Dequeue` | libraries/core/source/Thread.cpp:188-203 | Once the wait is over: nothing if and only if the pool is shut down, else the first task |
| `ThreadPoolQueue.SharedQueue.Submit` | libraries/core/source/Thread.cpp:224-239 | Returns an id never used before, adds the task with that id and the priority asked for, and keeps the queue ordered |
| `ThreadPoolQueue.SharedQueue.Extract` | libraries/core/source/Thread.cpp:164-175 | Finds a task if and only if one with that id is queued |
| `ThreadPoolQueue.SharedQueue.Erase` | libraries/core/source/Thread.cpp:180-181 | Removes that task and no other |
| `ThreadPoolQueue.SharedQueue.ShutDownNow` | libraries/core/source/Thread.cpp:130-138 | Swaps the tasks out, clears the index and stops the queue |
| `ThreadPoolSafety.QueueInvStep` | libraries/core/source/Thread.cpp:126-244 | Every step of every thread keeps order, index and the iterator a cancellation holds |
| `ThreadPoolSafety.PhaseInvStep` | libraries/core/source/Thread.cpp:126-222 | Every step keeps the phases apart: running exactly before shutdown, no exit while running, nobody asleep after the notification |
| `ThreadPoolSafety.CursorInvStep` | libraries/core/source/Thread.cpp:156-161 | Every step, insertions and erasures included, keeps the iterator of the last loop at an entry or at the end |
| `ThreadPoolSafety.WakeInvStep` | libraries/core/source/Thread.cpp:188-244 | Every step keeps this: while a worker of a running pool sleeps, there are as many submitters about to notify and workers about to look as there are queued tasks |
| `ThreadPoolSafety.InvStep` | libraries/core/source/Thread.cpp:126-244 | Order, index, phases, iterator, wake-ups and history survive every step of every thread |
| `ThreadPoolSafety.RunInv` | libraries/core/source/Thread.cpp:126-244 | Every state of every interleaving satisfies them |
| `ThreadPoolSafety.EveryTaskIsLookedFor` | libraries/core/source/Thread.cpp:188-244 | The wake-up bound in every reachable state: no task is left to a worker that sleeps |
| `ThreadPoolSafety.HistoryInvStep` | libraries/core/source/Thread.cpp:188-244 | Every step keeps the start order by id within a priority, over what has started and what is queued |
| `ThreadPoolSafety.NoLostWakeup` | libraries/core/source/Thread.cpp:188-244 | No reachable state has work in a running queue, all workers asleep and no notification on its way |
| `ThreadPoolSafety.NoSleepAfterNotifyAll` | libraries/core/source/Thread.cpp:130-154 | After the shutdown notification no worker sleeps, then or later |
| `ThreadPoolSafety.NoStartAfterShutdown` | libraries/core/source/Thread.cpp:193-202 | Once shutdown has begun no task starts |
| `ThreadPoolSafety.DequeueTakesFirst` | libraries/core/source/Thread.cpp:70-95 | Over every run a dequeued task was queued; if a High task is left it is High, if it is Low all that is left is Low, and of its own priority it is the oldest |
| `ThreadPoolSafety.UrgentGoesFirst` | libraries/core/source/Thread.cpp:70-95 | Over every run a more urgent task starts after a less urgent one only if it was submitted after that one had started |
| `ThreadPoolSafety.PriorityIsKept` | libraries/core/source/Thread.cpp:224-239 | Over every run a submission queues its task, and whatever is queued or started under its id has the priority submitted |
| `ThreadPoolSafety.IdsCountSubmissions` | libraries/core/source/Thread.cpp:229-229 | Over every run the next id is one more than the number of submissions |
| `ThreadPoolSafety.StartOrder` | libraries/core/source/Thread.cpp:70-95 | Over every run tasks of one priority start in submission order |
| `ThreadPoolSafety.IndexIsExact` | libraries/core/source/Thread.cpp:164-181 | Over every run, whenever the mutex is free, the index holds exactly the queued tasks, each under its own entry |
| `ThreadPoolCalls.PlaceBefore` | libraries/core/source/Thread.cpp:126-244 | The task a step moves is where that step expects it, and the last loop has not called it before |
| `ThreadPoolCalls.SettledStep` | libraries/core/source/Thread.cpp:126-222 | Every step keeps the calls of workers, shutdown and cancellations equal to what the place of the task says |
| `ThreadPoolCalls.DrainedStep` | libraries/core/source/Thread.cpp:156-181 | Every step keeps the calls of the last loop to one for a task in the queue or erased from it |
| `ThreadPoolCalls.CursorCallsStep` | libraries/core/source/Thread.cpp:156-181 | Every step keeps the completers ahead of the iterator uncalled by the loop, although entries come and go around it |
| `ThreadPoolCalls.CallInvStep` | libraries/core/source/Thread.cpp:126-244 | The accounting, with one place for every task ever submitted, survives every step, whatever callers do |
| `ThreadPoolCalls.RunCalls` | libraries/core/source/Thread.cpp:126-244 | Every state of every interleaving satisfies it |
| `ThreadPoolCalls.CallersDoNotRepeat` | libraries/core/source/Thread.cpp:126-222 | No worker, shutdown list, cancellation or last loop calls a completer that the same one has called before |
| `ThreadPoolCalls.AtMostTwice` | libraries/core/source/Thread.cpp:126-244 | In every interleaving, whatever callers do, a completer is called at most twice, and twice if and only if a cancellation and the last loop have both called it |
| `ThreadPoolCalls.AtMostOnceBeforeDrain` | libraries/core/source/Thread.cpp:126-154 | Until the workers have been joined it is called at most once, whatever callers do |
| `ThreadPoolCalls.CallsWhenGone` | libraries/core/source/Thread.cpp:126-162 | The number of calls for every task when the destructor has returned, from what the last loop called and what is still queued |
| `ThreadPoolCalls.AtMostOnce` | libraries/core/source/Thread.cpp:126-244 | In every run whose callers keep out of the last loop a completer is called at most once |
| `ThreadPoolCalls.ExactlyOnceWhenGone` | libraries/core/source/Thread.cpp:126-162 | In such a run every submitted task has been completed exactly once when the destructor returns |
| `ThreadPoolLate.OwedStep` | libraries/core/source/Thread.cpp:156-181 | Conservation: while a task stays queued, every step of every thread keeps the sum of what the last loop has called for it and what it still will |
| `ThreadPoolLate.JoinOwesAll` | libraries/core/source/Thread.cpp:149-161 | Right after the join the loop owes every queued task exactly one call |
| `ThreadPoolLate.CallsWhenLeftAlone` | libraries/core/source/Thread.cpp:156-161 | A task in the queue of the last loop that no cancellation touches gets exactly the calls that the loop owes it |
| `ThreadPoolLate.CallsOnceErased` | libraries/core/source/Thread.cpp:156-181 | A task in the queue of the last loop that a cancellation erases ends with that call and those the loop owed it and had made by then |
| `ThreadPoolLate.LeftAloneAfterJoin` | libraries/core/source/Thread.cpp:149-161 | A task queued at the join that no cancellation touches is completed exactly once, whatever else callers do |
| `ThreadPoolLate.LateCancelIff` | libraries/core/source/Thread.cpp:156-181 | A task queued at the join and erased by a cancellation during the last loop, whenever that cancellation entered, is completed exactly once if and only if the erasure comes before the loop reaches it; otherwise twice |
| `ThreadPoolLate.LateSubmitIff` | libraries/core/source/Thread.cpp:156-161 | A task submitted during the last loop and not cancelled is completed if and only if it was inserted beyond the iterator; otherwise never |
| `ThreadPoolLate.LateSubmitThenCancelIff` | libraries/core/source/Thread.cpp:156-181 | A task submitted during the last loop and then erased by a cancellation is completed twice if and only if it was inserted beyond the iterator and the loop reached it before the erasure; otherwise once |
| `ThreadPoolLate.LateCancelCallsTwice` | libraries/core/source/Thread.cpp:156-181 | From every state of the last loop a cancellation of any indexed task that the loop has called or will call has a continuation with two calls |
| `ThreadPoolLate.CancelAfterJoinCallsTwice` | libraries/core/source/Thread.cpp:151-181 | Right after the join that is every queued task |
| `ThreadPoolLate.HeldCancelCallsTwice` | libraries/core/source/Thread.cpp:151-181 | So has a cancellation that already held the mutex |
| `ThreadPoolLate.LateSubmitIsLost` | libraries/core/source/Thread.cpp:156-161 | From every state of the last loop a submission has a continuation in which the destructor returns and the task is never completed |
| `ThreadPoolLate.NotAlwaysExactlyOnce` | libraries/core/source/Thread.cpp:126-244 | A run with a task completed twice and a run with a task never completed |
| `ThreadPoolProgress.StepUsesBacklog` | libraries/core/source/Thread.cpp:188-244 | In a running pool every step but a new call or a spurious wake-up strictly decreases a measure |
| `ThreadPoolProgress.StoppedIsIdle` | libraries/core/source/Thread.cpp:188-222 | A running pool with a worker stops only with all workers asleep and an empty queue |
| `ThreadPoolProgress.RunningPoolFinishes` | libraries/core/source/Thread.cpp:188-244 | Liveness: a running pool with at least one worker, into which no further call enters and where nobody is woken without cause, takes a bounded number of steps, and where it stops every task submitted over the whole run has been completed exactly once |
| `ThreadPoolProgress.StepUsesMeasure` | libraries/core/source/Thread.cpp:126-222 | During shutdown every step but a new call strictly decreases a measure |
| `ThreadPoolProgress.ShutdownNeverStuck` | libraries/core/source/Thread.cpp:126-222 | During shutdown some thread inside the pool can move until the destructor is done or the iterator of its last loop dangles |
| `ThreadPoolProgress.DestructorTerminates` | libraries/core/source/Thread.cpp:126-162 | From shutdown on, runs without new calls are bounded; where they stop the destructor is done or its iterator dangles, and if callers keep out of the last loop it is done and every task is completed exactly once |
| `ThreadPoolProgress.WakeupNeedsWorkers` | libraries/core/source/Thread.cpp:101-106 | A pool without workers, which the default options build, leaves a queued task unseen |
| `PathUtil.PopSegment` | libraries/core/source/PathUtil.cpp:446-461 | The backward erase removes exactly the last kept segment and moves the offset to where it began |
| `PathUtil.ConsumeSegment` | libraries/core/source/PathUtil.cpp:401-485 | One turn of the loop does to the string what one segment does to the stack: drop, climb, stop at the root, keep a leading climb, or push |
| `PathUtil.NormalizeSegments` | libraries/core/source/PathUtil.cpp:376-516 | The in-place loop terminates and leaves the path that the stack of segments spells |
| `PathUtil.Normalize` | libraries/core/source/PathUtil.cpp:315-516 | The whole function, with the current and home directory supplied, equals its specification, whose laws are the `PathLaws` rows |
| `PathUtil.Join` | libraries/core/source/PathUtil.cpp:233-264 | Joining in place equals its specification |
| `PathLaws.BareStart` | libraries/core/source/PathUtil.cpp:337-374 | A single dot is the current directory and a single tilde the home directory, as the environment gives them |
| `PathLaws.DetourIff` | libraries/core/source/PathUtil.cpp:337-374 | Any other path that starts with a tilde, or a dot before a dot or a slash, goes on below the home or the current directory, as though that and a slash stood in front, if and only if the directory does not end in a backslash or the path climbs out of what was glued |
| `PathLaws.DetourStack` | libraries/core/source/PathUtil.cpp:337-374 | Its stack is that of the directory with the pieces of the path resolved on top |
| `PathLaws.DetourBelow` | libraries/core/source/PathUtil.cpp:337-374 | `~/b` is `b` below the home directory and `./b` is `b` below the current one, for every `b` |
| `PathLaws.ParentOfCwd` | libraries/core/source/PathUtil.cpp:344-354 | `..` is the directory name of the current directory |
| `PathLaws.DropsNothings` | libraries/core/source/PathUtil.cpp:401-485 | In an absolute or plain relative path an empty piece, a dot and a tilde name nothing |
| `PathLaws.NameAndBack` | libraries/core/source/PathUtil.cpp:401-485 | A name and the climb after it cancel out |
| `PathLaws.RootStays` | libraries/core/source/PathUtil.cpp:401-485 | A climb at the root goes nowhere |
| `PathLaws.ClimbTooMany` | libraries/core/source/PathUtil.cpp:401-485 | In a relative path a climb too many stays in front |
| `PathLaws.TrailingSlashDrops` | libraries/core/source/PathUtil.cpp:328-333 | A slash at the end of any path makes no difference |
| `PathLaws.JoinEnds` | libraries/core/source/PathUtil.cpp:241-264 | Joining to an absolute path gives that path normalized, whatever stands on the left; an empty operand changes nothing |
| `PathLaws.NormalizeAbsolute` | libraries/core/source/PathUtil.cpp:328-331 | For an absolute path the environment and trailing slashes play no part |
| `PathLaws.NormalizeIsCanonical` | libraries/core/source/PathUtil.cpp:376-513 | For every absolute path the result is canonical and stands for the same stack |
| `PathLaws.CanonicalIffFixed` | libraries/core/source/PathUtil.cpp:315-516 | Among absolute paths the canonical ones are exactly the fixed points |
| `PathLaws.NormalizeIdempotent` | libraries/core/source/PathUtil.cpp:315-516 | Normalizing twice is normalizing once, for every absolute path |
| `PathLaws.RelativeFixedIff` | libraries/core/source/PathUtil.cpp:335-375 | The result for a plain relative path is a fixed point if and only if its stack is empty or its bottom segment begins neither with two dots nor with a tilde |
| `PathLaws.NormalizeTwiceIff` | libraries/core/source/PathUtil.cpp:315-516 | For every path at all, normalizing twice is normalizing once if and only if the path is not such a relative one |
| `PathLaws.NotAlwaysIdempotent` | libraries/core/source/PathUtil.cpp:335-375 | A path that fails it: one climb too many |
| `PathLaws.JoinsWithSlashIff` | libraries/core/source/PathUtil.cpp:251-257 | Joining to an absolute path acts as though a slash stood between, for every right operand, if and only if the left one does not end in a backslash |
| `PathLaws.JoinAssociatesIff` | libraries/core/source/PathUtil.cpp:241-264 | Two joins are one normalization for every third part, even when a climb crosses a join, if and only if the first join does not end in a backslash |
| `PathLaws.ResolveByEffect` | libraries/core/source/PathUtil.cpp:401-485 | What a list of segments does to any absolute stack: so many climbs that stop at the root, then names |
| `PathLaws.AbsorbsIff` | libraries/core/source/PathUtil.cpp:251-257 | Gluing instead of inserting a slash changes nothing if and only if the right operand climbs past all that the gluing changed, counted from its pieces and the height of the left one |
| `PathLaws.JoinAssociatesFromAnywhere` | libraries/core/source/PathUtil.cpp:241-264 | The law of two joins for left operands that end in a backslash too, with that condition |
| `PathLaws.DirnameBasename` | libraries/core/source/PathUtil.cpp:75-117 | Below the root the directory name spells the stack without its top and the base name is the top |
| `PathLaws.RelativeDirnameBasename` | libraries/core/source/PathUtil.cpp:75-117 | The same for a relative result, whose directory may be empty |
| `PathLaws.DirnameBasenameJoinIff` | libraries/core/source/PathUtil.cpp:75-117 | Joining the two gives the normalized path back if and only if the directory does not end in a backslash; the root included |
| `PathLaws.IsRelativeIffPrefix` | libraries/core/source/PathUtil.cpp:204-217 | For absolute paths: holds if and only if the parent stack is a strict prefix of the child stack |
| `ArgparseSpec.FirstMatch` | libraries/core/source/Argparse.cpp:623-625 | The argument chosen matches, and no earlier one does |
| `ArgparseSpec.MatchesIff` | libraries/core/source/Argparse.cpp:80-116 | An argument or option matches exactly the tokens `-f`, `--name`, `--alias` and, for a name without an equals sign, `--name=...`; a command its own name; a positional anything while it may still be given |
| `ArgparseSpec.TakesIff` | libraries/core/source/public/Fusion/Impl/Argparse.h:399-450 | A matching argument takes a text if and only if its tokens spell it: `--name=text`, or a form without an equals sign and then the text; an option takes none and a positional its own token |
| `ArgparseSpec.LacksIff` | libraries/core/source/public/Fusion/Impl/Argparse.h:399-450 | It lacks a text if and only if it needs a further token and there is none |
| `ArgparseSpec.ArgumentForms` | libraries/core/source/public/Fusion/Impl/Argparse.h:399-450 | The three forms written out, for every name without an equals sign, every text and every rest |
| `ArgparseLaws.ValueConsumes` | libraries/core/source/public/Fusion/Impl/Argparse.h:399-496 | An argument, option or positional that parses uses up the tokens that spell its text, records both, and has the agreement of the host to that text; one that fails changes nothing |
| `ArgparseLaws.CloseKeeps` | libraries/core/source/Argparse.cpp:660-681 | The closing checks change nothing and pass if and only if no token is left and no required argument is missing |
| `ArgparseLaws.CommandEnds` | libraries/core/source/Argparse.cpp:164-184 | After a command only the closing checks of its parent remain, because the nested parser uses every token up |
| `ArgparseLaws.ProcessIsLawful` | libraries/core/source/Argparse.cpp:604-681 | Every run, failing ones included, is accounted for by its event log: pieces of tokens and the texts they spell, first matches, agreement of the host, found-set, chosen commands, nesting, novelty and required arguments |
| `ArgparseLaws.FailureHasCause` | libraries/core/source/Argparse.cpp:604-681 | Every failing run stops where its log leads, with the tokens not used up, for the reason it reports: found before, no text to take, a text or command refused, a required argument missing, or a token nobody answers to, in that order of precedence |
| `ArgparseLaws.ValuesAreSpelled` | libraries/core/source/Argparse.cpp:619-658 | Every value accepted was read by the parser it belongs to, as the first argument answering to its token given what had been found, with the text its tokens spell |
| `ArgparseLaws.TokensAreConsumed` | libraries/core/source/Argparse.cpp:619-658 | The tokens are consumed from the front in consecutive nonempty pieces, all of them on success |
| `ArgparseLaws.RequiredAreFound` | libraries/core/source/Argparse.cpp:660-666 | On success every required argument of the root and of each entered command is in the root found-set |
| `ArgparseLaws.ParsedOnce` | libraries/core/source/Argparse.cpp:627-630 | In a run from a reset parser no name that is not a sequence is parsed twice |
| `ArgparseLaws.OneCommandPerLevel` | libraries/core/source/Argparse.cpp:637-646 | Commands are entered each below the one before and executed innermost first, so at most one per level |
| `ArgparseLaws.ProcessKeepsCommandsInTree` | libraries/core/source/Argparse.cpp:172-173 | Only parsers of the tree ever have a chosen command |
| `Argparse.ArgumentParser.Close` | libraries/core/source/Argparse.cpp:660-681 | The two closing checks compute the specified outcome |
| `Argparse.ArgumentParser.FindMatch` | libraries/core/source/Argparse.cpp:623-625 | The search finds the first argument that matches |
| `Argparse.ArgumentParser.ParseValue` | libraries/core/source/public/Fusion/Impl/Argparse.h:399-496 | Parsing a value and marking it found equals one step of the specification |
| `Argparse.ArgumentParser.Process` | libraries/core/source/Argparse.cpp:604-681 | The recursive loop over the shared found-set and span terminates and computes the specified outcome |
| `Argparse.ArgumentParser.Reset` | libraries/core/source/Argparse.cpp:683-688 | Clears the found-set at the root and the chosen command of every parser below, and nothing outside |
| `Argparse.ArgumentParser.Parse` | libraries/core/source/Argparse.cpp:549-578 | A failure leaves found-set and chosen commands empty if and only if the list was nonempty or they were empty before |
| `Argparse.ArgumentParser.ParseSpan` | libraries/core/source/Argparse.cpp:580-597 | The same for a span, if and only if the offset is in range or they were empty before |
| `RandomSpec.MixInverts` | libraries/core/source/Random.cpp:44-52 | The 64-bit mixer is a bijection, with its inverse given |
| `RandomSpec.MixesZeroToZero` | libraries/core/source/Random.cpp:44-52 | Only zero is mixed to zero |
| `RandomSpec.StepInverts` | libraries/core/source/Random.cpp:247-300 | One step of each generator is a bijection on its states, with its inverse given |
| `RandomSpec.StepKeepsNonzero` | libraries/core/source/Random.cpp:247-300 | The all-zero state is reached only from itself |
| `RandomSpec.NeverZero` | libraries/core/source/Random.cpp:200-300 | From every seed, zero included, no run of any generator reaches the all-zero state |
| `RandomSpec.RunsStayApart` | libraries/core/source/Random.cpp:247-300 | Two runs that agree after any number of outputs started in the same state |
| `RandomSpec.SeedsAgreeIff` | libraries/core/source/Random.cpp:212-239 | Two runs from 64-bit seeds agree after any number of outputs if and only if the seeds are equal once zero is read as one |
| `RandomSpec.SeedsAgreeIff32` | libraries/core/source/Random.cpp:204-206 | The same for 32-bit seeds |
| `RandomCycles.RunsAreCycles` | libraries/core/source/Random.cpp:247-300 | From every state of every generator some positive number of outputs, at most the number of states, leads back to it |
| `RandomPolynomials.StepAdds` | libraries/core/source/Random.cpp:247-258 | One step of the 32-bit generator is linear over exclusive or |
| `RandomPolynomials.ActTwice` | libraries/core/source/Random.cpp:247-258 | A polynomial in one step, applied twice, is the same polynomial in two steps, so squaring spreads coefficients |
| `RandomPeriod.ReturnsIff` | libraries/core/source/Random.cpp:247-258 | The state 1 of the 32-bit generator is back exactly after the multiples of 2^32 - 1 draws |
| `RandomPeriod.FullPeriod` | libraries/core/source/Random.cpp:247-258 | Full period: from every nonzero state of the 32-bit generator every nonzero state is reached within 2^32 - 1 draws, and a state comes back exactly after the multiples of that number |
| `RandomSpec.OutputsAreOnto` | libraries/core/source/Random.cpp:278-300 | Every 64-bit value is the next output of some state of each of the two large generators |
| `RandomSpec.BitsAreNumbers` | libraries/core/source/Random.cpp:247-300 | As numbers: the narrow draw is the output modulo 2^32, and the wide draw of the 32-bit generator is two outputs, the first worth 2^32 times as much |
| `RandomSpec.StreamSpellsOutputs` | libraries/core/source/Random.cpp:302-390 | The bytes of the stream spell one output after another, each from the low end |
| `RandomSpec.MixChainIs` | libraries/core/source/Random.cpp:227-239 | Each seeded word is the mix of the one before, the first that of the seed |
| `RandomSpec.StreamPrefix` | libraries/core/source/Random.cpp:302-390 | Fewer bytes from a state are the front of more bytes from it |
| `RandomSpec.StreamConcatIff` | libraries/core/source/Random.cpp:302-390 | Bytes drawn in two calls are those of one call, from every state of a generator, if and only if the first call takes whole outputs or the second takes nothing |
| `Random.XorShift32.Bits32` | libraries/core/source/Random.cpp:247-258 | Advances the state by the bijective step and returns the native output of the state before |
| `Random.XorShift32.Bits64` | libraries/core/source/Random.cpp:270-276 | Two outputs, the first in the high half |
| `Random.XorShift32.Bytes` | libraries/core/source/Random.cpp:302-330 | The buffer receives exactly the first bytes of the stream; a null buffer draws nothing |
| `Random.XorShift128.constructor` | libraries/core/source/Random.cpp:212-221 | Two words, the mixer applied once and twice to the seed, with zero read as one |
| `Random.XorShift128.Bits64` | libraries/core/source/Random.cpp:278-289 | Advances both words by the bijective step and returns the output of the state before |
| `Random.XorShift128.Bytes` | libraries/core/source/Random.cpp:332-360 | The buffer receives exactly the first bytes of the stream |
| `Random.XorShift1024.constructor` | libraries/core/source/Random.cpp:227-239 | The sixteen words are the mixer iterated from the seed, zero read as one, and drawing starts at word 0 |
| `Random.XorShift1024.Bits64` | libraries/core/source/Random.cpp:291-300 | Replaces one word of sixteen, by the bijective step, and returns the output of the state before |
| `Random.XorShift1024.Bytes` | libraries/core/source/Random.cpp:362-390 | The buffer receives exactly the first bytes of the stream |
| `Random.XorShift32.UInt32` | libraries/core/source/public/Fusion/Impl/Random.h:73-87 | Takes one output from the object and returns, for ordered bounds, `min` plus the bits drawn modulo the size of the range; the other two generators have the same method |
| `Random.XorShift32.UInt64` | libraries/core/source/public/Fusion/Impl/Random.h:90-105 | Takes two outputs from the object and returns, for ordered bounds, `min` plus the bits drawn modulo the size of the range; the other two generators have the same method and take one output |
| `Random.XorShift32.Int32` | libraries/core/source/public/Fusion/Impl/Random.h:43-53 | Takes one output from the object and returns, for ordered bounds, `min` plus the bits drawn modulo the size of the range; the other two generators have the same method |
| `Random.XorShift32.Int64` | libraries/core/source/public/Fusion/Impl/Random.h:55-65 | Takes two outputs from the object and returns, for ordered bounds, `min` plus the bits drawn modulo the size of the range; the other two generators have the same method and take one output |
| `RandomSpec.UIntIs` | libraries/core/source/public/Fusion/Impl/Random.h:73-105 | For every draw and any bounds the value lies `bits` modulo the size of the range past `min`, wrapping round; the full range reduces nothing |
| `RandomSpec.UIntIsInCyclicRange` | libraries/core/source/public/Fusion/Impl/Random.h:73-105 | Every result is in the cyclic range; for ordered bounds it is `min` plus `bits` modulo the size, at most `max` |
| `RandomSpec.UIntIsEven` | libraries/core/source/public/Fusion/Impl/Random.h:73-105 | Of the bit patterns, each value of the range is drawn by the quotient of their number by the size of the range, or one more, and exactly which |
| `RandomSpec.UIntIsFair` | libraries/core/source/public/Fusion/Impl/Random.h:73-105 | Two values of the range are drawn by numbers of patterns that differ by at most one, and by equally many if the size divides the width |
| `RandomSpec.UIntIsOnto` | libraries/core/source/public/Fusion/Impl/Random.h:73-105 | Every value of the range is returned for some bits |
| `RandomSpec.IntIs` | libraries/core/source/public/Fusion/Impl/Random.h:43-65 | For every draw and ordered signed bounds the value is `min` plus `bits` modulo the size, at most `max`, through unsigned wrap-around |
| `RandomSpec.IntIsEven` | libraries/core/source/public/Fusion/Impl/Random.h:43-65 | Each signed value of the range is drawn by as many bit patterns as the unsigned one |
| `RandomSpec.IntIsOnto` | libraries/core/source/public/Fusion/Impl/Random.h:43-65 | Every value of the signed range is returned for some bits |
| `MemoryCodecSpec.DecodeInverts` | libraries/core/source/Memory.cpp:53-268 | Every field of every size and byte order decodes to itself |
| `MemoryCodecSpec.EncodesDigits` | libraries/core/source/Memory.cpp:391-495 | The bytes of a word written are its base-256 digits, from the high end in the `BE` calls and from the low end in the `LE` ones |
| `MemoryCodecSpec.DecodesDigits` | libraries/core/source/Memory.cpp:53-226 | A word read is the number its bytes spell in that order |
| `MemoryCodecSpec.WritesInside` | libraries/core/source/Memory.cpp:365-377 | Writing a list touches only the bytes between the first and last offset |
| `MemoryCodecSpec.ReadsBack` | libraries/core/source/Memory.cpp:53-495 | For every list, fitting or not, what fitted is read back as written, the rest as zeros, and the reader ends where the writer did |
| `MemoryCodecSpec.RoundTripIff` | libraries/core/source/Memory.cpp:53-495 | The round trip is exact if and only if every field fits at its turn or was zero |
| `MemoryCodecSpec.RoundTrip` | libraries/core/source/Memory.cpp:53-495 | Every list of words and nonempty spans that fits is written and read back without loss, with equal final offsets and no assertion of the reader tripped |
| `MemoryCodec.MemoryWriter.Put` | libraries/core/source/Memory.cpp:365-377 | All the bytes at the offset, or nothing and an unmoved offset when they do not fit; the writer has no other demand |
| `MemoryCodec.MemoryWriter.Put16` | libraries/core/source/Memory.cpp:391-419 | The 16-bit writes in both orders write that field |
| `MemoryCodec.MemoryWriter.Put32` | libraries/core/source/Memory.cpp:421-453 | The 32-bit writes in both orders write that field |
| `MemoryCodec.MemoryWriter.Put64` | libraries/core/source/Memory.cpp:455-495 | The 64-bit writes in both orders write that field |
| `MemoryCodec.MemoryReader.Read16` | libraries/core/source/Memory.cpp:53-91 | The 16-bit reads in both orders decode the bytes at the offset, or give zero without moving |
| `MemoryCodec.MemoryReader.Read32` | libraries/core/source/Memory.cpp:107-151 | The 32-bit reads likewise |
| `MemoryCodec.MemoryReader.Read64` | libraries/core/source/Memory.cpp:169-226 | The 64-bit reads likewise |
| `MemoryCodec.MemoryReader.ReadSpan` | libraries/core/source/Memory.cpp:247-268 | The span of that length at the offset, or an empty one without moving |
| `MemoryCodec.WriteThenRead` | libraries/core/source/Memory.cpp:53-495 | Over the two objects on one buffer: what fitted comes back, the list read equals the list written if and only if every field fits at its turn or was zero, both objects end at the same offset and the bytes beyond it are untouched |
| `MemoryCodecSpec.ReadsAllowedIff` | libraries/core/source/Memory.cpp:247-306 | Over a whole list the seek assertion of the reader is tripped if and only if an empty span comes up at the end of the buffer, which the writer accepts |

## Left out

- Windows branches of the path functions, `LongPath`, `Extension`, `RelPath` and `Normcase` rewriting: the POSIX branch is modelled, in which `Normcase` changes nothing.
- The current and the home directory are parameters, taken to be absolute; looking them up is not modelled. The unit tests expect a home directory given with backslashes to be rewritten, which the POSIX code does not do; the model follows the code.
- Task ids are unbounded; the 64-bit id counter would have to wrap for this to differ.
- The memory model below the mutex: the unlocked last loop is modelled as though each of its steps were atomic, and an iterator whose entry is erased stops it. Exceptions thrown by tasks or completers, and `Strand`.
- Calls on a pool whose destructor has returned.
- `ThreadPool::Await` and `Future`: only the completer call at the end of the task body is modelled.
- The periods of the two large generators: they come back within the number of their states, and only the 32-bit one is shown to have full period.
- The table of sines and the word orders of MD5 are transcribed from RFC 1321 and from the code, and compared.
- Which worker a notification wakes is left open, so every choice is covered; fairness of the scheduler is not assumed or modelled.
- Building a parser (`AddArgument`, `AddCommand`, inheritance into existing commands): the tree is given, and an inherited argument is simply in both lists.
- Conversion of values, choices and actions: an opaque host that may accept or refuse, depending on everything accepted so far; the values written to targets are not modelled, nor is the argument-by-argument reset of targets.
- Help and usage text, and `Parse(char**)`.
- A token that is a lone dash matches no flag in the model; the source reads the terminator behind it.
- The parser objects of the tree are one object with paths as keys; aliasing between parser objects is not captured.
- ThreadPoolProgress.DestructorTerminates: bounds the runs from shutdown on into which no further call enters; with unboundedly many new calls the destructor need not end.
- MessageDigest.MDHash.Process: stated under the source's own assertion; `TailCopyAppendsIffMayProcess` says what lies outside it.
- Explicit-offset reads, strings and seeking in the memory classes.
- `size_t` overflow of an offset plus a length in the memory classes.
- Hardware and system randomness, the clock seed, and floating-point results.
- XXHASH, JSON, logging, console, sockets and the socket services, `RingBuffer`, vectors and arrays, and string comparison.
