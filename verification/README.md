# Model of the faucet's proof-of-work claims and payouts

The faucet hands out coins to anyone who solves a proof-of-work challenge. A client asks for a challenge for its IPv4
address and a chain, searches for a solution, and claims; a solved claim on the first layer becomes a payout, and
payouts are sent in batches. This project models that path and proves what the pieces promise, each alone and together.

- **Challenges under concurrency** (`Challenges`, `EvictionQueue`, `PowSystem`, `History`, `PowInvariants`,
  `PowTheorems`, `Answers`, `Provenance`, `Progress`, `Wakeup`, `Linearization`, `CallEffects`, `Sequential`,
  `Schedules`). Any number of calls that get and
  check challenges, and one background task that evicts them, share a map, a heap of expiry entries, an atomic wakeup
  time and a channel. `PowSystem` takes every shared access as a step of its own: clock read, compare-and-swap, push,
  load, send; read, compare-and-swap, hash; pop, each removal, return of the lock, store. `PowInvariants` holds what
  every interleaving keeps; `PowTheorems` what that means; `Answers` what a check is told, in terms of the hash;
  `Provenance` where the map's challenges and the log's times come from; `Progress` that nothing but the heap's lock
  makes a call wait; `Wakeup` when an entry can be left without a wakeup;
  `Linearization` explains every run by a sequential one and `CallEffects` gives each call its one effect; `Schedules`
  holds concrete runs. The classes `ChallengeSet` and `EvictionQueue` are the same operations run alone, on fields
  updated in place, with a binary heap; `Sequential` shows that their contracts are what the steps come to.
- **Difficulty** (`Difficulty`, `DifficultyRounding`, `DifficultyBounds`, `DifficultyRange`, `DifficultyAccepted`,
  `Binary32`). The configuration and the three-branch calculation, with every binary32 operation passed through a
  rounding function. With the identity it is the documented clamped line; with any rounding as in section 4.3.1 of
  IEEE 754-2019 it has an error bound, and exact conditions for range and order. `Binary32` defines
  round-to-nearest-even and shows that it is such a rounding.
- **Proof of work** (`Bytes`, `ProofOfWork`, `Solver`). Leading zeros as a threshold on the digest's value, on the
  server and in the browser, and the browser's search for the least solution. The hash is any function to 32 bytes.
- **Payouts** (`Batcher`, `Faucet`, `FaucetQueue`, `FaucetTheorems`). The bounded queue that every tick drains a slice
  of, and the faucet as a whole: difficulty, challenge, claim, queue, batch. `Faucet` accounts for every solved claim;
  `FaucetQueue` follows a payout from the step that queued it to the tick that drains it; `FaucetTheorems` says what the
  payouts owe to the claims.

Conventions. Times are nanoseconds since the eviction queue was created. An `install` numbers the successful installs of
challenges in a run; like `log`, `installed`, `solved`, `accepted`, `dropped` and `batches` it is history that no step
of the model depends on. Runs are finite sequences of steps of any length.

## Where code and prose disagree

The model follows the code.

- The server hashes a salt other than the one in the repository's README and solvers (src/pow.rs:131,
  utils/html-solver/static/solver.js:20-24). The salt is a parameter; agreement is stated for equal salts.
- src/pow.rs:264-280 describes array vectors, recursion, and deletion after the lock is released. The code collects into
  one vector and holds the lock until it returns. src/pow.rs:194 speaks of evictions every 500 ms; there is a timer.
- src/pow.rs:126 reads a failed compare-and-swap as another client's claim. It may be an eviction:
  `Schedules.RefusedAfterEviction`; `CallEffects.RefusalIsAtomicIff` says exactly when the answer is the atomic one.
- src/pow.rs:480 relies on the line to stay in range. The cast saturates, so 0..255 holds, but with a large minimum
  balance rounding takes the result out of [m, M]: `DifficultyBounds.RangeFailsWithoutGentle`.
- docs/pow.md fixes M = 255 and an integer L. The code takes both from the settings, L as a binary32 number.

Five properties one might expect are false of the code, each with a concrete input and its exact condition.
A wakeup can be lost when a client loads the published time between the end of a pass and the store after it
(`Schedules.LostWakeup`, `Wakeup.NoLostWakeup`). A compare-and-swap can mark an install other than the one read
(`Schedules.EqualInstallsAreConfused`, `PowTheorems.SuccessMeansSameOrTwin`). A check can be told that a challenge was
claimed when none ever was (`Schedules.RefusedAfterEviction`, `CallEffects.RefusalIsAtomicIff`). An all-zero digest
counts as no zeros on the server, because the count is a `u8` (`ProofOfWork.ServerAcceptsIffBelowTarget`,
`Solver.SolverAgreesWithServer`, `Answers.SolverIsAccepted`). The rounded difficulty can leave its range and rise with
the balance (`Binary32.Binary32LeavesTheRange`, `DifficultyRange.RangeIff`, `DifficultyRange.OrderIff`).

## Model

| member | source | states |
|---|---|---|
| `PowInvariants.TokenStep` | src/pow.rs:247-253 | Every step of every call and of the background task keeps the token invariant: entries in the heap, about to be pushed, and popped but not removed are, together, exactly one for each mapped challenge and none for any other. |
| `PowInvariants.PassStep` | src/pow.rs:281-297 | While a pass runs, what it still has to remove has expired, what the heap holds has not, and its next wakeup is the least expiry left. |
| `PowInvariants.LogStep` | src/pow.rs:74-140 | The log of a run stays well formed: installs only on absent keys, claims only of present unclaimed installs, evictions only of expired ones; and it determines the map. |
| `PowInvariants.ChallengeStep` | src/pow.rs:68-88 | Every copy of a challenge in the map or in a call's hands stays the one installed under its number, up to the claimed mark. |
| `PowInvariants.ReadStep` | src/pow.rs:100-122 | What a check read was present and unclaimed at its read, and that call has claimed nothing since. |
| `PowInvariants.SolveStep` | src/pow.rs:108-140 | Each claimed install is verified by at most one call and solved at most once, and every solved claim carries a digest the server accepts. |
| `PowInvariants.InvOverRuns` | src/pow.rs:57-299 | All of these invariants hold in every state that any interleaving reaches. |
| `PowTheorems.OneTokenPerKey` | src/pow.rs:74-77 | In every reachable state a mapped key has exactly one eviction entry, with the mapped challenge's expiry, and an unmapped key has none. |
| `PowTheorems.RemovalHitsItsOwnInstall` | src/pow.rs:293-296 | The unconditional removal finds the key mapped to the very install its entry was pushed for, already expired, and no pass removes a key twice. |
| `PowTheorems.NoEarlyEviction` | src/pow.rs:281-298 | A key leaves the map only when the clock has reached the expiry of its challenge; a key that stays keeps its install, and a claimed mark is never taken back. |
| `PowTheorems.StaysUntilExpiry` | src/pow.rs:108-122 | Over any stretch of a run that ends before its expiry, an installed challenge stays mapped, and a claimed one blocks its key all that time. |
| `PowTheorems.PassIsComplete` | src/pow.rs:281-298 | When a pass ends, every mapped key expires later than the pass began, except installs whose push is pending. |
| `Provenance.MappedIsMade` | src/pow.rs:68-77 | Every challenge mapped in any reachable state was made by a get on its key at a step of the run: its nonce and difficulty are that get's, and it expires at that step's clock plus the L1 setting on L1, plus the L2 setting on L2. |
| `Provenance.LogIsStamped` | src/pow.rs:63-140 | Every change of the map is one event of the log, at the time of the clock, of the right kind, key and install; and nothing else is logged. |
| `Provenance.InstallIsMade` | src/pow.rs:68-77 | Every install in the log expires its own chain's setting after a clock reading that a get on its key took, no later than the install. |
| `Progress.CallsGoOn` | src/pow.rs:63-140 | A call in flight can take exactly one step, and only a push ever waits, for the task to release the heap; a free name can begin any get or check. |
| `Progress.CallsEnd` | src/pow.rs:63-140 | Each step of its own brings a call nearer its end: a get takes at most five, a check at most three. |
| `Progress.TaskGoesOn` | src/pow.rs:216-241 | The waiting task can take a message exactly when there is one and begin a pass exactly when its wakeup has come, whatever the heap holds; a pass can always go on removing or return, and what has to be stored can be stored. |
| `PowTheorems.AtMostOneSuccessPerInstall` | src/pow.rs:100-128 | Over a run no install is claimed twice, by any callers, and a key is never claimed more often than installed. |
| `PowTheorems.ClaimRate` | src/pow.rs:68-77 | n successful claims on one key within a window W of a run satisfy (n - 2)(D - delay) <= W, when every install follows its clock read within `delay`. |
| `PowTheorems.ClaimsByTime` | src/pow.rs:68-77 | At most T / (D - delay) + 1 claims on one key succeed by time T. |
| `PowTheorems.FailureMeansEnded` | src/pow.rs:118-128 | When the compare-and-swap fails, the log between the call's read and its compare-and-swap holds an eviction of the install it read, or a claim of it by another call. |
| `PowTheorems.SuccessMeansSameOrTwin` | src/pow.rs:118-125 | The compare-and-swap succeeds exactly when the install that was read is still mapped and unclaimed, or the key holds a twin of it: another unclaimed install equal to it as a challenge. So success means the same install if and only if there is no twin. |
| `PowTheorems.SuccessMeansSameInstall` | src/pow.rs:118-125 | Over a run with fresh nonces, or with installs that differ as challenges, there is no twin: success means exactly that the install that was read is still there, unclaimed. |
| `Schedules.EqualInstallsAreConfused` | src/pow.rs:68-77 | A concrete run with a twin, in which the compare-and-swap marks an install other than the one read. |
| `Linearization.StepIsExplained` | src/pow.rs:63-140 | A step with an effect does, and answers, what one sequential operation does: a get, an atomic claim, a removal of an expired challenge, or a refusal, which changes nothing and is possible only when the install the check had found is no longer there unclaimed; every other step leaves the map alone. |
| `Linearization.RunIsExplained` | src/pow.rs:57-140 | The effects of any run, replayed one at a time on a sequential map, are all possible and end in the run's own map. |
| `Linearization.OneAnswer` | src/pow.rs:63-140 | What a sequential get returns, and a sequential check answers, is determined by the map. |
| `CallEffects.OneEffectPerCall` | src/pow.rs:57-140 | Whenever a get or a check ends, exactly one effect of it lies between the step that began that call and the step that ends it, with the call's own key and arguments: for a get the challenge it made when it began and the one it returns; for a check its answer, where a refusal is of an install that was there unclaimed when the call began. |
| `CallEffects.EffectsAreOwnSteps` | src/pow.rs:57-140 | Every effect of a run lies at a step taken by the very call it belongs to. |
| `CallEffects.AnswersAreExplained` | src/pow.rs:63-140 | Whatever a check is told, at its read, its compare-and-swap or its hash, and whatever a get returns, is given by the one effect of that call. |
| `CallEffects.RefusalIsAtomicIff` | src/pow.rs:118-128 | For every failed compare-and-swap: at some moment since the check began an atomic check would have said already claimed, if and only if the log holds a claim on the key since its read. |
| `Schedules.RefusedAfterEviction` | src/pow.rs:126-127 | A run in which a check is told already claimed although nothing was ever claimed. |
| `History.OneClaimPerInstall` | src/pow.rs:104-128 | In every well-formed log two claims name two installs. |
| `History.ClaimsNeverExceedInstalls` | src/pow.rs:104-128 | Claims on a key never exceed its installs, and a present unclaimed challenge leaves one to spare. |
| `History.CountsArePositions` | src/pow.rs:104-128 | The installs and the claims counted are the positions of the log that hold one for the key. |
| `History.EndedInBetween` | src/pow.rs:118-128 | If an unclaimed install is later gone, replaced or claimed, the log in between holds its claim or its eviction. |
| `History.RateBound` | src/pow.rs:104-122 | With challenges that live at least d, n claims on a key within a window W satisfy (n - 2) d <= W. |
| `Schedules.TwoClaimsAtOnce` | src/pow.rs:104-122 | The 2 in that bound cannot be lowered: for every duration, a run in which two claims on a key succeed at one instant, with no delay between any clock read and its install. |
| `History.AtMostOnePerLife` | src/pow.rs:104-122 | From the start of a run at most T / d + 1 claims on a key succeed by time T. |
| `Wakeup.WakeOverRuns` | src/pow.rs:216-262 | In every reachable state no expiry lies further ahead than the longest challenge duration, no two calls carry one entry, and outside the return-to-store window the published time is not before the task's own. |
| `Wakeup.CoverStep` | src/pow.rs:248-262 | For one entry and one step: the entry is covered afterwards (a wakeup no later than its millisecond, a message no later than it, or its adder on its way) exactly when the step is not a stale load for it. |
| `Wakeup.NoLostWakeup` | src/pow.rs:216-262 | Over a whole run every entry in the heap is covered after every step if and only if no client, between the end of a pass and the store, finds the old published time soon enough and sends nothing although the wakeup about to be stored is later and no message covers its entry. |
| `Wakeup.AtomicStoreLosesNothing` | src/pow.rs:228-240 | With the end of a pass and the store after it as one step, no wakeup is ever lost. |
| `Wakeup.CoveredIsEvicted` | src/pow.rs:228-298 | A covered entry with no message and no adder on its way, a millisecond past its expiry: the waiting task can begin a pass, and every pass it can begin pops that entry. |
| `Schedules.LostWakeup` | src/pow.rs:228-262 | For every challenge duration under 5000 years, a run after which an entry waits for a wakeup 10000 years away with no message and no call in flight. |
| `EvictionQueue.SplitIsUnique` | src/pow.rs:281-298 | The heap and the time determine what a pass pops (as a multiset), what it leaves, and its next wakeup. |
| `EvictionQueue.PublishedTime` | src/pow.rs:228-240 | The published time is the wakeup in whole milliseconds, rounded down, and 315360000000000 (10000 years) for an empty heap. |
| `EvictionQueue.RootIsLeast` | src/pow.rs:324-328 | Under the inverted order the root of the heap is an entry of least expiry. |
| `EvictionQueue.SiftUp` | src/pow.rs:249-253 | Restores the heap order after an append, keeping the entries. |
| `EvictionQueue.SiftDown` | src/pow.rs:286-287 | Restores the heap order after the root is overwritten, keeping the entries. |
| `EvictionQueue.EvictionQueue.constructor` | src/pow.rs:195-214 | The queue starts empty, with the wakeup 10000 years away and the published time at the largest `u64`. |
| `EvictionQueue.EvictionQueue.Push` | src/pow.rs:249-253 | Adds exactly one entry and keeps the heap order. |
| `EvictionQueue.EvictionQueue.Pop` | src/pow.rs:287 | Removes exactly the root and keeps the heap order. |
| `EvictionQueue.EvictionQueue.AddChallenge` | src/pow.rs:248-262 | Adds one entry and sends its expiry exactly when its millisecond is before the published one. |
| `EvictionQueue.EvictionQueue.PopExpired` | src/pow.rs:282-292 | Splits the heap exactly: popped plus remaining is the original, popped is what had expired, in order of expiry, and the result is the least remaining expiry or none. |
| `EvictionQueue.EvictionQueue.RemoveExpired` | src/pow.rs:281-298 | That split, and exactly the popped keys leave the map. |
| `EvictionQueue.EvictionQueue.OnTimer` | src/pow.rs:228-240 | That pass, with the next wakeup (or 10000 years) set and published. |
| `EvictionQueue.EvictionQueue.OnMessage` | src/pow.rs:218-226 | Takes one message; reschedules and publishes exactly when it is earlier than the wakeup. |
| `EvictionQueue.GetChallenge` | src/pow.rs:63-89 | A get run alone returns the challenge that is there, changing nothing, or installs, queues and returns a new one, which lives for the L1 setting on L1 and for the L2 setting on L2. |
| `Challenges.ChallengeSet.Cas` | src/pow.rs:74-88 | Succeeds exactly when the key is absent, or holds a challenge equal to the expected one; a failure changes nothing. |
| `Challenges.ChallengeSet.CheckSolution` | src/pow.rs:92-140 | A check run alone says that there is no nonce exactly when the key is absent and already claimed exactly when its challenge is; otherwise it marks the challenge, even when the proof of work is bad, and accepts exactly when the hash of salt, nonce and solution is below 2^(256 - difficulty), an all-zero one only at difficulty 0. |
| `Answers.AtomicAnswer` | src/pow.rs:97-140 | The same of the atomic claim that the concurrent runs are explained by: every answer, if and only if, in terms of the map and the hash alone, and the whole map afterwards. |
| `Answers.ReadAnswer` | src/pow.rs:97-106 | In an interleaved run the read answers exactly for an absent key (no nonce) and for a claimed challenge (already claimed). |
| `Answers.ClaimAnswer` | src/pow.rs:118-128 | The compare-and-swap answers already claimed unless the key holds a challenge equal to the one that was read. |
| `Answers.HashAnswer` | src/pow.rs:130-139 | In every reachable state the hash step answers for the challenge installed under the number its call claimed: accepted exactly when the hash of salt, that nonce and the solution is below 2^(256 - difficulty), an all-zero one only at difficulty 0; else bad proof of work. |
| `Answers.SolvedIsAccepted` | src/pow.rs:130-139 | A claim is recorded as solved exactly when its check is answered accepted, by its own key, install and solution. |
| `Answers.SolverIsAccepted` | utils/html-solver/static/solver.js:19-45 | End to end: the hex string that the browser's search returns for the encoded nonce of an unclaimed challenge, with the server's salt and hash, is accepted, if and only if it does not hash to all zeros at a difficulty above 0. |
| `Sequential.GetOfPresent` | src/pow.rs:74-82 | The steps of a get of a mapped key, taken in a row, leave the state as it was. |
| `Sequential.GetOfAbsent` | src/pow.rs:68-78 | The steps of a get of an absent key, taken in a row, come to one new challenge, one new entry, and a message if the published wakeup is later; `Provenance.MappedIsMade` fixes the expiry. |
| `Sequential.PassAlone` | src/pow.rs:228-240 | The steps of a pass, taken in a row, remove exactly the popped keys and store the next wakeup. |
| `Sequential.MessageAlone` | src/pow.rs:218-226 | The steps of a message, taken in a row, set and publish an earlier wakeup and leave any other. |
| `Sequential.RefusedAlone` | src/pow.rs:97-106 | A check of an absent key or of a claimed challenge is over with its read, changes nothing, and answers as the atomic claim does. |
| `Sequential.CheckAlone` | src/pow.rs:97-140 | The steps of a check of an unclaimed challenge, taken in a row, are the atomic claim, in its answer and its map; `Answers.AtomicAnswer` says what those are. |
| `ProofOfWork.LeadingZerosIsThreshold` | src/pow.rs:333-345 | A byte string has at least d leading zero bits if and only if its big-endian value is below 2^(8n - d). |
| `ProofOfWork.CountLeadingZeros` | src/pow.rs:333-345 | The loop's `u8` accumulator ends at the number of leading zero bits modulo 256. |
| `ProofOfWork.ServerCount` | src/pow.rs:333-345 | For a digest the count is exact unless all bytes are zero, and then it is 0. |
| `ProofOfWork.ServerAcceptsIffBelowTarget` | src/pow.rs:130-139 | The server accepts exactly the digests below 2^(256 - difficulty), except that an all-zero digest passes only difficulty 0. |
| `Solver.HexRoundTrip` | utils/html-solver/static/solver.js:26-33 | Decoding an encoded byte string gives it back. |
| `Solver.DecodedValue` | utils/html-solver/static/solver.js:26 | The big-endian value of the bytes decoded from pairs of digits is the base-16 number that the string denotes, the most significant digit first. |
| `Solver.EncodedValue` | utils/html-solver/static/solver.js:33 | The string encoded from bytes denotes their big-endian value in base 16. |
| `Solver.Digits` | utils/html-solver/static/solver.js:26-33 | The digits are 0123456789abcdef, read in either case and written in lower case. |
| `Solver.PaddedIndexIsByteZeros` | utils/html-solver/static/solver.js:12 | The position of the first one in the padded binary digits is the byte's number of leading zeros. |
| `Solver.CountLeadingZeros` | utils/html-solver/static/solver.js:6-17 | The solver's loop counts leading zero bits exactly. |
| `Solver.Increment` | utils/html-solver/static/solver.js:36-43 | The carry loop turns the array, in place, into its successor. |
| `Solver.SuccessorAddsOne` | utils/html-solver/static/solver.js:36-43 | The successor adds one to the big-endian value, modulo 256^n. |
| `Solver.EveryStringIsACandidate` | utils/html-solver/static/solver.js:29-44 | The search visits every 8-byte string, in numerical order, once every 2^64 rounds. |
| `Solver.SearchEndsIffSolvable` | utils/html-solver/static/solver.js:29-34 | Some round solves the challenge if and only if some 8-byte string does. |
| `Solver.FindSolution` | utils/html-solver/static/solver.js:19-45 | On a solvable challenge the search ends within 2^64 rounds with the numerically least solution, hex encoded. |
| `Solver.SolverAgreesWithServer` | utils/html-solver/static/solver.js:32-34 | With one salt the solver and the server accept the same candidates, save that an all-zero digest at a difficulty above 0 divides them; `Answers.HashAnswer` ties the server's side to what a check is told. |
| `DifficultyAccepted.AcceptedIff` | src/pow.rs:360-427 | Under any binary32 rounding, exactly which configurations are accepted, which are refused for overflow, and which as an invalid calculation (the computed L q below 2^-23); the three overflow checks after the division guard never fail. |
| `Difficulty.FirstBadInput` | src/pow.rs:367-396 | Which error is given when several inputs are bad: the first of maximum below minimum, claim amount 0, coefficient not positive; a NaN or infinite coefficient is an overflow. |
| `DifficultyAccepted.Constants` | src/pow.rs:402 | The constants the conditions are in are those of binary32: 2^-23 for the gap above 1, 2^128 - 2^104 for the largest finite number, 2^-150 for half the least positive one. |
| `Difficulty.FastFormIsDocumentedLine` | src/pow.rs:473-484 | Over exact reals the three-branch precomputed form is round(max(m, min(M, base(x)))) for every balance and every accepted configuration. |
| `DifficultyAccepted.AcceptedExamples` | src/pow.rs:490-704 | Over exact reals, the configurations that the source builds as examples, with all their fields. |
| `DifficultyAccepted.RefusedExamples` | src/pow.rs:507-604 | Over exact reals, each error the source expects for its bad examples. |
| `DifficultyAccepted.CalculatedExamples` | src/pow.rs:516-704 | Over exact reals, the difficulties the source expects of those configurations. |
| `DifficultyBounds.RoundedDifficulty` | src/pow.rs:473-484 | Under any binary32 rounding and a gentle minimum balance, the difficulty is within 1 of the documented value, and in [m, M], for every balance. |
| `DifficultyRange.RangeIff` | src/pow.rs:473-484 | Under any binary32 rounding, for every accepted configuration: the difficulty is in [m, M] for every balance if and only if it is at the two edges of the middle branch, two evaluations of the settings; always, when no balance takes that branch. |
| `DifficultyRange.OrderIff` | src/pow.rs:473-484 | Likewise more balance never means more difficulty if and only if the branches meet in order at those edges (the upper one only when a balance lies above it). |
| `DifficultyRange.GentleKeepsRangeAndOrder` | src/pow.rs:473-484 | A gentle minimum balance is enough for both, over all balances and all three branches. |
| `DifficultyBounds.ZeroMinimumIsGentle` | src/pow.rs:379 | With minimum balance 0 every configuration is gentle. |
| `DifficultyBounds.RangeFailsWithoutGentle` | src/pow.rs:480-482 | A configuration with a large minimum balance for which round-to-nearest gives 16 where m is 18 and the documented value 23, and 18 for one sat more. |
| `Binary32.NearestEvenIsARounding` | src/pow.rs:377-414 | Round-to-nearest-even, defined on reals, is monotone, has the assumed error, and is exact on small integers; so everything proved for binary32 roundings holds of it. |
| `Binary32.Binary32LeavesTheRange` | src/pow.rs:480-482 | That rounding itself gives 16 and 18 for that configuration. |
| `DifficultyBounds.Ramp` | docs/pow.md:32-41 | Over exact reals k claims that each lower the balance by q raise the difficulty by at most ceil(k (M - m) / L), so from b + Lq or more the maximum is out of reach until that is M - m. |
| `DifficultyBounds.RoundedRamp` | docs/pow.md:32-41 | The same under any binary32 rounding and a gentle minimum balance, with at most 1 more at either end. |
| `Batcher.Batcher.constructor` | src/batcher.rs:75-81 | A new batcher is not started and holds nothing. |
| `Batcher.Batcher.QueuePayoutRequest` | src/batcher.rs:162-177 | Answers not started, not available, or queued; only the last appends the request to the channel. |
| `Batcher.Batcher.OnReceive` | src/batcher.rs:146-152 | Takes the oldest request from the channel and queues it if there is room, else drops it. |
| `Batcher.Batcher.OnTick` | src/batcher.rs:98-121 | Drains one slice from the front in place and totals it in a `u64`; the slice is gone whether or not its transaction can be built; an overflow aborts. |
| `Batcher.TickDrains` | src/batcher.rs:98-121 | A tick on a queue makes one batch of the min(max_per_tx, length) oldest requests with their sum, marked by whether it was built, and leaves the rest queued; it aborts exactly when that sum overflows. |
| `Batcher.StepConserves` | src/batcher.rs:93-153 | Every event keeps: accepted requests are the drained batches in order followed by the queue, the queue is within `max_in_flight`, no batch exceeds `max_per_tx`, and each total is the sum of its amounts. |
| `Batcher.FifoConservation` | src/batcher.rs:93-153 | That over every run; the accepted requests are exactly the arrivals that found room, in the order they came, the dropped ones exactly those that did not, and the two interleave to all arrivals. |
| `Batcher.WaitingTime` | src/batcher.rs:98-114 | The request at position p is drained on exactly the (p / max_per_tx + 1)-th later tick, at place p % max_per_tx of its batch, whatever arrives in between. |
| `Batcher.WaitIsBounded` | src/batcher.rs:146-150 | Every accepted request is drained within ceil(max_in_flight / max_per_tx) ticks. |
| `Batcher.DrainedByTicks` | src/batcher.rs:98-114 | The request at position p is among the drained ones if and only if more than p / max_per_tx ticks have passed. |
| `Batcher.EmptySlicesDrainNothing` | src/batcher.rs:109 | With `max_per_tx` 0 no request ever leaves the queue. |
| `Batcher.NeverOverflowsIff` | src/batcher.rs:110-114 | Amounts up to a cap can never overflow a total, over every run, if and only if min(max_per_tx, max_in_flight) times the cap fits in a `u64`. |
| `Batcher.SettingsNeverOverflow` | src/settings.rs:86-109 | With the settings' cap on claims that is exactly when min(max_per_tx, max_in_flight) is at most 10^10 + 2. |
| `Batcher.SpentIsDrained` | src/batcher.rs:110-114 | The totals of the batches add up to the amounts of the drained requests. |
| `Faucet.PowInside` | src/main.rs:174-252 | What the faucet does to the challenges is a run of the challenge system, so every theorem about those applies to it. |
| `Faucet.MappedFromSettings` | src/main.rs:98-113 | In every reachable state the difficulty of a mapped L1 challenge is what the configuration accepted for the L1 settings computes for some balance, and that of an L2 challenge what the one for the L2 settings does. |
| `Faucet.SolvedFromSettings` | src/main.rs:199-205 | The same of the challenge under every solved claim. |
| `Faucet.EveryBalanceIsServed` | src/main.rs:199-205 | At every balance a get on either chain can begin, with the difficulty its own layer's settings give for that balance. |
| `Faucet.RangeOverRuns` | src/main.rs:199-205 | If both layers' calculations stay in range, every mapped L1 challenge has a difficulty between the L1 bounds, and every mapped L2 challenge one between the L2 bounds. |
| `Faucet.GentleKeepsRange` | src/main.rs:98-113 | Gentle settings are enough for that. |
| `Faucet.AccountOverRuns` | src/main.rs:230-252 | In every reachable state each solved L1 claim is in exactly one place: with its handler, refused for its address, in the channel, accepted or dropped. |
| `FaucetQueue.BatcherInside` | src/batcher.rs:83-158 | In every run the batcher is where its own events, the run's receives and ticks, have brought it; and what it has been given, followed by the channel, is exactly what the claim handlers queued, in order. |
| `FaucetQueue.PayoutWasQueued` | src/main.rs:242-249 | Every payout in the channel, accepted, dropped or drained was queued by a step of the run with its own install and its own address, for the configured amount. |
| `FaucetQueue.OneQueueStep` | src/main.rs:242-249 | No run queues a payout for an install twice. |
| `FaucetQueue.ReceivedInOrder` | src/batcher.rs:146-153 | The payout at place i of the channel is received by exactly the (i + 1)-th receive from then, and is i - r places from the head after r of them. |
| `FaucetQueue.ReceiveTakesHead` | src/batcher.rs:146-153 | A receive takes the head of the channel: to the end of the queue if there is room, out of the system if there is none. |
| `FaucetQueue.PaidOnTime` | src/batcher.rs:98-114 | Over any stretch of a run without an overflow, the payout at position p of the queue has been drained exactly when more than p / max_per_tx ticks have passed, and it is the p-th drained since. |
| `FaucetQueue.PayoutArrives` | src/batcher.rs:98-153 | From the channel to a batch: once every payout before it has been received it is received next, and if there is room then it is drained on exactly the (q / max_per_tx + 1)-th tick after, q being the queue's length, so within ceil(max_in_flight / max_per_tx) ticks. |
| `FaucetTheorems.EveryPayoutIsEarned` | src/main.rs:230-249 | Every payout ever drained into a batch is for the configured amount, pays a solved L1 claim (an install claimed exactly once, with a digest below 2^(256 - difficulty)), and goes to the address of the one step of the run that queued a payout for that install. |
| `FaucetTheorems.EveryPayoutMeetsTheMinimum` | src/main.rs:199-249 | If the calculations stay in range, that digest is below 2^(256 - min_difficulty). |
| `FaucetTheorems.NeverAborts` | src/batcher.rs:110-114 | If min(max_per_tx, max_in_flight) claim amounts fit in a `u64`, no run of the faucet overflows a total. |
| `FaucetTheorems.NoClaimPaysTwice` | src/main.rs:242-249 | Two payouts in any batches pay two installs. |
| `FaucetTheorems.SatsAccounting` | src/main.rs:242-249 | Solved L1 claims are counted exactly by drained, queued, in the channel, dropped, refused and with a handler; the batches come to the claim amount times the drained payouts, so never more than that times the solved claims. |
| `FaucetTheorems.PaidWithinClaims` | src/main.rs:230-249 | What is drained for one address's claims is the claim amount for each of their payouts, and at most the claim amount times its successful claims. |
| `FaucetTheorems.SatsPerClient` | src/main.rs:230-249 | By time T that is at most T / (D - delay) + 1 claim amounts, D being the L1 duration. |

## Left out

- HTTP routing, extraction of the client address and refusal of IPv6, JSON, settings files, logging, the file server: input and output.
- The wallets, PSBT building, signing, broadcasting, fee rates, persistence and balances: unseen libraries. Whether a transaction can be finished is an input, and a drained request is not claimed to be paid.
- L2 claims after their check: sent at once by a provider that is not part of this model.
- SHA-256: any function to 32 bytes; nonces are inputs, and their freshness a hypothesis only where named.
- Memory ordering, thread-local clones, kanal and tokio internals: one linearizable map, a FIFO channel, atomic cells. How soon the background task wakes is not modelled, so no bound on the time of an eviction is claimed, only that none is early, and exactly when an entry can be left without a wakeup.
- Gets before the eviction queue exists: it is created lazily, after the first install (src/pow.rs:76, 190), so the first clock readings and installs precede its start, where durations since the start saturate at zero. The model's clock begins with the queue and leaves those out.
- A reader of `expires_at` in a check: the code has none, so a challenge past its expiry can be claimed until it is evicted.
- Overflow of a clock reading plus a challenge duration, which aborts the program: times are unbounded.
- The Python solver, whose leading-zero count differs from the others (utils/solver.py:14).
- Requeuing of failed batches: the code drains first, and so does the model.
- `EvictionQueue.EvictionQueue.Pop`: the standard library's heap is not in the repository; a textbook binary heap stands in for it, so the order among equal expiries is not claimed.
- `EvictionQueue.EvictionQueue.OnTimer`: run alone, in one go; the window between the end of a pass and the store is in `PowSystem`.
- `ProofOfWork.CountLeadingZeros`: wraps as in the release profile; a debug build would stop on an all-zero digest.
- `Solver.FindSolution`: called on challenges that some 8-byte string solves, since on others the loop does not end (`Solver.SearchEndsIffSolvable`), and on non-empty hexadecimal nonces; characters that are not digits are not modelled.
- `PowTheorems.ClaimRate`: the delay between clock read and compare-and-swap is a parameter, because nothing in the code bounds it.
- `PowTheorems.SuccessMeansSameInstall`: for runs whose nonces, or installs, differ; `PowTheorems.SuccessMeansSameOrTwin` is the statement without that.
- `Linearization.RunIsExplained`: a refusal is an operation of its own, with its own condition, because the code answers that a challenge is claimed even after an eviction; `CallEffects.RefusalIsAtomicIff` and `PowTheorems.FailureMeansEnded` say what it means.
- `Wakeup.NoLostWakeup`: to the millisecond, and for expiries whose milliseconds fit in 64 bits (584 million years).
- `DifficultyBounds.RoundedDifficulty`: the distance of 1 from the documented value is proved for gentle settings, (M - m)(b / (Lq) + 1) <= 2^18, which is sufficient and not necessary; range and order have exact conditions in `DifficultyRange`.
- `DifficultyBounds.Ramp`: over exact reals; `DifficultyBounds.RoundedRamp` is the binary32 form, for gentle settings.
- `DifficultyAccepted.CalculatedExamples`: over exact reals, where the source computes in binary32; within 1 by `DifficultyBounds.RoundedDifficulty`.
- `FaucetTheorems.EveryPayoutMeetsTheMinimum`: for layers whose calculation stays in range, which `DifficultyRange.RangeIff` decides by two evaluations of each.
- `Batcher.Batcher.Start`: called once, as the program does; a second call would orphan the first task.
- `Batcher.WaitingTime`: for runs in which no total overflows, since an overflow aborts the program; `Batcher.SettingsNeverOverflow` says when none can. So are `FaucetQueue.PaidOnTime` and `FaucetQueue.PayoutArrives`; `FaucetTheorems.NeverAborts` says when.
