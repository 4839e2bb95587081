# MaryJaneCoin: a verified model

This project models the parts of the MaryJaneCoin node whose correctness cannot be read off one function, and
proves that they do what the node relies on. Everything is proved for all inputs, all runs and all random
choices. Hash functions, the network layer, scripts, the database, the clock and random numbers are
parameters or nondeterministic choices.

The components, with the modules that hold them:

- **Peer address manager** (`AddrTables`, `AddrEviction`, `AddrPromotion`, `AddrSteps`, `AddrManager`,
  `AddrCheck`, `AddrRuns`, `AddrLives`, `AddrSpread`). The class `AddrMan` updates the seven linked tables in place. `AddrTables.Inv` is the
  consistency of the tables: `mapAddr`, `mapInfo` and `vRandom` are mutually inverse, a reference count is the
  number of new buckets that hold the entry and lies between 1 and 4, buckets hold at most 64, a tried entry
  sits in its own tried bucket and nowhere else, the counters are right, and `nIdCount` exceeds every id. With
  it, the repository's own `Check_` returns 0 exactly if the time stamps are in order. `AddrSpread` bounds how much
  of the tables the announcements of a few groups of peers can ever occupy, `AddrLives` follows single entries.
- **Peer file** (`AddrFile`, `AddrReload`, `AddrRoundTrip`, `AddrForeign`, `AddrFields`, `AddrStore`). Writing
  renumbers the entries; reading gives back an isomorphic manager. `AddrFields` says what is in the file.
- **Parallel check queue** (`CheckQueueSpec`, `CheckQueueImpl`). A transition system with one step per critical
  section, for any number of workers and one controller.
- **Keccak** (`KeccakPermutation`, `KeccakBits`, `KeccakConstants`, `Iteration`, `KeccakCode`,
  `SpongeSpec`, `KeccakContext`), **BLAKE** (`BlakeSpec`, `BlakeContext`) and **JH** (`JhSpec`, `JhContext`), over `Streaming` (folding a compression function over
  blocks), `Octets` and `Buffering` (the buffering loop that the contexts share).
- **Proof of stake** (`StakeModifier`, `StakeKernel`).
- **Synchronised checkpoints** (`BlockTree`, `Checkpoints`, `CheckpointNode`).
- **Codecs and containers** (`Radix`, `Bignum`, `Base58`, `Pbkdf2Spec`, `Pbkdf2`, `BloomSpec`, `Bloom`,
  `LimitedMapSpec`, `LimitedMap`).

Where the source mutates objects, the model is a class with the same fields, and each method is proved against
a function or relation on snapshots of those fields; the theorems are then about these.

Findings about the code, each stated as a theorem:

- `CAddrMan::SelectTried` swaps before it records the position. A full tried bucket gives up the oldest of the
  sample exactly if the pick of that round was its own place, and unless all its success times are equal there
  are picks that make it give up a newer entry (`AddrEviction.VictimIsOldest`, `AddrEviction.OldestMayStay`).
- `CAddrMan::Good_` with a time of 0 or below leaves an entry that `Check_` rejects, exactly when the address is
  known under that port; `Attempt_` needs a time that is not negative (`AddrManager.AddrMan.Good`,
  `AddrManager.AddrMan.Attempt`, and with one entry `AddrRuns.CheckAfterGood`, `AddrRuns.CheckAfterAttempt`).
- A peer file with another number of new buckets is read without a size check. The manager is consistent
  exactly if no bucket gets more than 64 entries; 65 entries of one bucket break it (`AddrForeign.ForeignInv`,
  `AddrForeign.LongFileOverfills`).
- The search mode of `CheckStakeKernelHash` takes the target at the time it starts from, check mode at the time
  found. They agree for every hash function exactly if every tried time is `Generous`
  (`StakeKernel.AgreesExactly`); they do under the caller's conditions (`StakeKernel.SearchAndCheck`), but not with
  a negative target and a negative weight, or with a time that wraps at 2^32.
- `limitedmap` with `nMaxSize` 1 has nothing to evict when the first entry is inserted
  (`LimitedMap.NothingToEvict`).
- A Bloom filter with data but without hash functions and without a set bit forgets what was inserted as soon as
  its marks are recomputed; every other filter keeps it, the full one without data included
  (`BloomSpec.InsertedStays`, `BloomSpec.SpendIsRelevant`).
- The length field of JH is the number of bits modulo 2^73, since the block counter has 64 bits; so the padding is
  that of JH exactly for lengths below 2^73, modulo 2^128 (`JhContext.FieldIs`, `JhContext.PaddingsAgree`).

## Model

| member | source | states |
|---|---|---|
| `AddrManager.AddrMan.Find` | src/addrman.cpp:74-85 | finds exactly the addresses whose mapped id has an entry, and returns that id |
| `AddrManager.AddrMan.Create` | src/addrman.cpp:87-97 | the whole new state: next id, entry with its place, address mapping and `vRandom` extended by the id |
| `AddrManager.AddrMan.SwapRandom` | src/addrman.cpp:99-117 | exchanges two places of `vRandom` together with both back-pointers, and nothing else |
| `AddrTables.SwapKeeps` | src/addrman.cpp:99-117 | a swap of two places keeps the whole invariant |
| `AddrManager.AddrMan.SelectTried` | src/addrman.cpp:119-139 | swaps a sample of at most four to the front, and returns the place from which the oldest of it was taken (-1 if empty); nothing else changes |
| `AddrEviction.SwapsKeep` | src/addrman.cpp:119-139 | the sampling permutes the bucket |
| `AddrEviction.VictimIsOldest` | src/addrman.cpp:119-139 | the entry replaced is the oldest of the sample if and only if the pick of that round was its own place |
| `AddrEviction.OldestMayStay` | src/addrman.cpp:119-139 | a full bucket has picks that replace an entry newer than the oldest of the sample if and only if two of its success times differ |
| `AddrManager.AddrMan.ShrinkNew` | src/addrman.cpp:141-191 | drops one id: the first terrible one in id order, or if there is none the oldest of four random picks; the new state is that drop |
| `AddrEviction.MayBeGivenUp` | src/addrman.cpp:146-178 | a bucket can lose exactly its first terrible entry, or any of its entries if none is terrible |
| `AddrManager.AddrMan.PickOldest` | src/addrman.cpp:165-178 | of the four picked places the entry announced first, with the smaller id on a tie |
| `AddrEviction.JustTriedStays` | src/addrman.cpp:33-51 | an entry tried within the last minute is never given up while another one of its bucket is terrible |
| `AddrEviction.MoreAttempts` | src/addrman.cpp:33-51 | a terrible entry stays terrible as attempts grow |
| `AddrEviction.TerribleByAge` | src/addrman.cpp:33-51 | the time alone makes an entry terrible, whatever its attempts and successes, exactly if it was not just tried and the time is unset, more than ten minutes ahead or more than 30 days old |
| `AddrEviction.TerribleByFailures` | src/addrman.cpp:33-51 | otherwise three failures before any success, or ten with the last success more than a week ago, and never within a week of one |
| `AddrTables.DropKeeps` | src/addrman.cpp:150-161 | dropping an id from a bucket, and the entry with its last reference, keeps the invariant, also while another entry's count is raised ahead of its insertion |
| `AddrManager.AddrMan.EraseFromNew` | src/addrman.cpp:197-201 | takes the id out of every new bucket and lowers its count by the number of buckets that held it |
| `AddrManager.AddrMan.Exchange` | src/addrman.cpp:217-240 | a sampling of a full tried bucket chooses the entry that `id` replaces; it goes back to its new bucket, or to the origin if that is full; the rest is unchanged |
| `AddrManager.AddrMan.MakeTried` | src/addrman.cpp:193-241 | the outcome of a promotion: the id at the end of its tried bucket, or in the place that the sampling of a full one chose; and the invariant |
| `AddrPromotion.PromotedKeeps` | src/addrman.cpp:193-241 | every outcome of a promotion keeps the invariant |
| `AddrManager.AddrMan.FindNewBucket` | src/addrman.cpp:265-276 | the walk from a random start finds a bucket with the id, or -1 exactly if there is none |
| `AddrManager.AddrMan.Good` | src/addrman.cpp:243-283 | the outcome with the victim the sampling chose, and the invariant; the check passes afterwards if and only if the time is positive or nothing matches |
| `AddrSteps.GoodTimes` | src/addrman.cpp:243-283 | for every outcome, the time stamps stay in order if and only if the time is positive or nothing matches |
| `AddrSteps.GoodChecks` | src/addrman.cpp:243-283 | for every outcome, so does the answer of the check |
| `AddrManager.AddrMan.MayPlace` | src/addrman.cpp:304-317 | another bucket exactly if the news is recent, the entry is new with fewer than four references, and the roll is a multiple of 2^references |
| `AddrLives.ChancesHalve` | src/addrman.cpp:313-317 | every reference halves the chance of another one |
| `AddrManager.AddrMan.Place` | src/addrman.cpp:326-334 | one more bucket with the count raised before; a full bucket first loses the first terrible entry or the oldest of four picks |
| `AddrManager.AddrMan.Add` | src/addrman.cpp:285-336 | the outcome with the victim by the rule of the bucket; new exactly for routable unknown addresses; keeps the invariant and valid times |
| `AddrSteps.AddKeeps` | src/addrman.cpp:285-336 | every outcome of an announcement keeps the invariant and the times |
| `AddrLives.NewcomerIs` | src/addrman.cpp:318-334 | an unknown address gets the next id, with the fields of the announcement, the time less the penalty but not below 0, nothing tried, one reference, and is in its bucket and in `mapAddr` |
| `AddrLives.TimeKept` | src/addrman.cpp:255-260 | a 64-bit time that fits the 32-bit field is kept, others lose multiples of 2^32 |
| `AddrLives.RefreshedIsNewer` | src/addrman.cpp:293-302 | a repeated announcement never makes an entry older and only adds services |
| `AddrLives.RefreshedByHoursOrDays` | src/addrman.cpp:293-300 | the time moves only by more than an hour, or more than a day for addresses not seen in the last day, and then to that of the announcement less the penalty |
| `AddrLives.ThreeFailures` | src/addrman.cpp:338-352 | a minute after the third attempt an address without success can be given up |
| `AddrLives.GoodIsTried` | src/addrman.cpp:243-283 | after a success a known address is in its tried bucket, with the time of the success and no attempts |
| `AddrLives.SuccessLastsAWeek` | src/addrman.cpp:33-51 | for a week after a success no number of failures makes an entry terrible |
| `AddrSpread.NewBucketInReach` | src/addrman.cpp:19-31 | every address announced by a group of sources falls into the 32 buckets that stage two of the hash has for that group |
| `AddrSpread.NewBucketByGroups` | src/addrman.cpp:19-31 | the bucket depends on the two addresses only through their groups |
| `AddrSpread.NewBucketSpreads` | src/addrman.cpp:19-31 | for a hash function that adds up its input with weights: the bucket of every key, address and source in closed form |
| `AddrSpread.EveryBucketReached` | src/addrman.cpp:19-31 | no bucket is out of reach: eight groups of sources suffice for all 256 |
| `AddrSpread.TriedBucketInReach` | src/addrman.cpp:5-17 | all addresses of one group fall into 4 tried buckets |
| `AddrSpread.TriedBucketSpreads` | src/addrman.cpp:5-17 | for the same hash function, the tried bucket of every key and address in closed form |
| `AddrSpread.AddStaysInReach` | src/addrman.cpp:285-336 | the bucket that gains an entry from an announcement is one of the 32 of the source's group |
| `AddrSpread.FewBuckets` | src/addrman.cpp:193-336 | in every run, announcements by n groups of sources occupy at most 32n new buckets, and addresses of m groups at most 4m tried buckets, promotions and demotions included |
| `AddrManager.AddrMan.Attempt` | src/addrman.cpp:338-352 | the exact new state; keeps the invariant; the check passes afterwards if and only if the time is not negative or nothing matches |
| `AddrManager.AddrMan.Connected` | src/addrman.cpp:473-488 | the exact new state; keeps the invariant and valid times |
| `AddrLives.ConnectedIsRecent` | src/addrman.cpp:485-487 | afterwards the time is at most twenty minutes old; a more recent one is left alone |
| `AddrManager.AddrMan.GetAddr` | src/addrman.cpp:458-471 | as many addresses as the source allows, with service, services and time of the first places of `vRandom` after one swap per place; keeps the invariant |
| `AddrLives.SampleSizeIs` | src/addrman.cpp:460-462 | the largest number that is neither above 2500 nor above 23 percent of the entries |
| `AddrSteps.SampleDistinct` | src/addrman.cpp:458-471 | no address is returned twice |
| `AddrManager.AddrMan.CheckTried` | src/addrman.cpp:430-451 | -11 exactly if the tried buckets list another id or one twice; no error and nothing left over exactly if they list the tried ids, each once |
| `AddrManager.AddrMan.CheckNew` | src/addrman.cpp:440-452 | -12 exactly if a bucket holds another id or one is held more often than it counts; no error and nothing left over exactly if all counts are right |
| `AddrManager.AddrMan.Check` | src/addrman.cpp:399-455 | returns the code of the first thing wrong in the order of the tests, for entries in id order; 0 if and only if the declarative `CheckOk` holds |
| `AddrCheck.InvPassesCheck` | src/addrman.cpp:399-455 | under the invariant the check passes if and only if the time stamps are in order |
| `AddrRuns.EveryRunConsistent` | src/addrman.cpp:243-488 | every state of every run from the empty manager satisfies the invariant, whatever the random choices and times; the steps assume nothing of the states but what the assertions of the code ask for |
| `AddrRuns.EveryRunPassesCheck` | src/addrman.cpp:399-455 | every state of every run with sane times passes the repository's own check |
| `AddrRuns.Perform` | src/addrman.cpp:399-455 | after any operations on a valid manager object its check returns 0 |
| `AddrRuns.CheckAfterGood` | src/addrman.cpp:243-283 | announced once, then successful at a time: the check returns 0 if and only if that is positive |
| `AddrRuns.CheckAfterAttempt` | src/addrman.cpp:338-352 | announced once, then attempted at a time: the check returns 0 if and only if that is not negative |
| `AddrStore.WriteNew` | src/addrman.h:178-190 | the new entries in id order, and the numbering of their ids, although skipped ids are numbered too |
| `AddrStore.WriteTried` | src/addrman.h:191-201 | the tried entries in id order |
| `AddrStore.WriteBuckets` | src/addrman.h:202-212 | every bucket as the ascending list of its ids' new numbers |
| `AddrStore.Serialize` | src/addrman.h:174-212 | the file is the one the tables determine, for every manager with the invariant; it lists the six saved fields of the new entries in id order, then those of the tried ones |
| `AddrStore.LoadTried` | src/addrman.h:236-255 | the tables and the number of lost entries are those of the reading function |
| `AddrStore.LoadBucket` | src/addrman.h:256-272 | reads one bucket, ignoring a fifth reference |
| `AddrStore.Unserialize` | src/addrman.h:213-273 | the tables read from any file, other bucket counts included; every new entry, and every tried one that finds room, has the six fields of the file under its id |
| `AddrFields.WrittenFields` | src/addrman.h:178-201 | the file lists the fields of the entries of each kind in ascending order of their ids |
| `AddrFields.NewEntryRead` | src/addrman.h:224-235 | new entry i of any file becomes entry i, with the file's service, services, time, source, last success and attempts, and not tried yet |
| `AddrFields.TriedEntryRead` | src/addrman.h:236-255 | a tried entry that finds room gets the next id, with the fields of the file |
| `AddrFields.LostCounts` | src/addrman.h:236-255 | the others are counted as lost |
| `AddrFields.TriedEntryFits` | src/addrman.h:236-255 | in a well-formed file tried entry j follows the new ones at place j |
| `AddrFields.UnknownIndexRead` | src/addrman.h:256-272 | an unknown number in a bucket list makes a blank entry without an address |
| `AddrReload.FinalInv` | src/addrman.h:213-273 | what is read from a well-formed file satisfies the invariant |
| `AddrForeign.ForeignInv` | src/addrman.h:224-272 | what is read from a file with fewer buckets, whose addresses differ and whose tried entries fit, satisfies the invariant if and only if no bucket gets more than 64 of its new entries |
| `AddrForeign.LongFileOverfills` | src/addrman.h:224-235 | a file with more than 64 new entries of one bucket, for which it fails |
| `AddrRoundTrip.RoundTrip` | src/addrman.h:162-275 | writing and reading gives a manager with the invariant, isomorphic up to ids and order, with service, services, time, source, last success and attempts of every entry, and with nothing lost |
| `AddrStore.SaveAndLoad` | src/addrman.h:162-275 | the same for the two objects |
| `CheckQueueImpl.CheckQueue.Proceed` | src/checkqueue.h:57-81 | the rest of a critical section: with checks queued the thread takes a batch of the size the source computes; it goes to sleep only on an empty queue |
| `CheckQueueSpec.SettleTakes` | src/checkqueue.h:57-81 | takes whenever the queue is not empty, returns exactly if it is empty, nothing is left to do and the thread is the controller or asked to quit, and sleeps otherwise |
| `CheckQueueSpec.BatchLengthIs` | src/checkqueue.h:72-72 | the batch is one check, or the most that fit the batch size and leave every registered or idle thread as many |
| `CheckQueueSpec.NobodySleepsOnWork` | src/checkqueue.h:44-81 | in every run, a critical section that finds checks takes such a batch from the back of the queue; a thread goes to sleep only if it finds none |
| `CheckQueueImpl.CheckQueue.TakeBack` | src/checkqueue.h:73-78 | moves the last checks of the queue into the batch |
| `CheckQueueImpl.CheckQueue.EnterLoop` | src/checkqueue.h:52-81 | the step of a thread entering the loop, with its invariant and verdict |
| `CheckQueueImpl.CheckQueue.ReportBatch` | src/checkqueue.h:46-81 | the step of a thread reporting a batch |
| `CheckQueueImpl.CheckQueue.WakeUp` | src/checkqueue.h:67-81 | the step of a thread waking |
| `CheckQueueImpl.CheckQueue.RunNext` | src/checkqueue.h:83-86 | runs one check, or skips it after a failure |
| `CheckQueueImpl.CheckQueue.AddChecks` | src/checkqueue.h:103-114 | appends the checks and counts them |
| `CheckQueueSpec.StepKeeps` | src/checkqueue.h:36-114 | every step of every thread keeps the invariant; a return to the controller is the conjunction of the checks added |
| `CheckQueueSpec.RunKeepsInv` | src/checkqueue.h:44-81 | in every state of every interleaving `nTodo` is the queue length plus all checked-out batches, and the two counters count the registered and the waiting threads |
| `CheckQueueSpec.WaitIsExact` | src/checkqueue.h:99-101 | in every interleaving `Wait` returns exactly whether all checks added since the previous one pass |
| `CheckQueueSpec.ControlIsReady` | src/checkqueue.h:128-134 | after `Wait` the three assertions of the control object hold |
| `CheckQueueSpec.NoLostWakeup` | src/checkqueue.h:49-51 | a waiting controller that has not been notified has a worker with work in hand |
| `CheckQueueSpec.WorkIsBounded` | src/checkqueue.h:42-87 | at most three working steps per check, however the threads interleave |
| `KeccakPermutation.ThetaFlipped` | src/keccak.c:884-923 | theta of the complemented state is theta complemented on the lanes of its own mask |
| `KeccakPermutation.ChiFlipped` | src/keccak.c:956-1033 | the code's mixture of AND, OR and NOT on complemented lanes is chi, complemented on the lanes the next round expects |
| `KeccakPermutation.RoundFlipped` | src/keccak.c:1290-1295 | one round of the code on complemented lanes is one round of section 3.2 of FIPS 202 |
| `KeccakBits.ThetaBit` | src/keccak.c:884-923 | theta bit by bit: the parities of the columns at (x - 1, z) and (x + 1, z - 1) are added (section 3.2.1 of FIPS 202) |
| `KeccakBits.RhoBit` | src/keccak.c:925-954 | rho bit by bit: bit z comes from z less the offset of the lane (section 3.2.2) |
| `KeccakBits.PiBit` | src/keccak.c:1037-1054 | pi bit by bit: (x, y) comes from (x + 3y, x) (section 3.2.3) |
| `KeccakBits.ChiBit` | src/keccak.c:956-1033 | chi bit by bit: the product of the inverted next bit and the one after it is added (section 3.2.4) |
| `KeccakPermutation.PiSourceIs` | src/keccak.c:1037-1054 | the table of pi, by which the register names move, is the formula of section 3.2.3 of FIPS 202 |
| `KeccakBits.IotaBit` | src/keccak.c:1035-1035 | iota bit by bit: the round constant is added to the lane at (0, 0) (section 3.2.5) |
| `KeccakConstants.TableIsStandard` | src/keccak.c:45-58 | the round constants are those of the shift register of section 3.2.5 of FIPS 202 |
| `KeccakConstants.ConstantBit` | src/keccak.c:45-58 | exactly the bits 2^j - 1 with rc(j + 7i) are set in the constant of round i |
| `KeccakConstants.OffsetsAreStandard` | src/keccak.c:925-954 | the offsets of rho are those of the walk of section 3.2.2 of FIPS 202 |
| `KeccakCode.NamesFollowPi` | src/keccak.c:1037-1054 | the register names of each round are those of the round before, moved by pi |
| `KeccakCode.ThetaInPlace` | src/keccak.c:884-923 | the macro on named registers is theta of the named state |
| `KeccakCode.RhoInPlace` | src/keccak.c:925-954 | the macro is rho |
| `KeccakCode.KhiInPlace` | src/keccak.c:968-1033 | the macro is the code's chi |
| `KeccakCode.RoundInPlace` | src/keccak.c:1290-1295 | theta and rho under the old names, chi and iota under the new ones, are one round with pi |
| `KeccakCode.P8ToP0` | src/keccak.c:1211-1245 | eight rotations put every register back under its first name |
| `KeccakCode.KeccakFInPlace` | src/keccak.c:1352-1365 | three times eight rounds in place are the 24 rounds of the code |
| `KeccakCode.CodeRoundsFlipped` | src/keccak.c:1352-1365 | after every number of rounds the code holds the state of Keccak-f[1600] with lanes 1, 2, 8, 12, 17 and 20 inverted |
| `KeccakContext.InputBuf` | src/keccak.c:238-263 | adds the block's bits to the first bits of the state |
| `KeccakContext.Context.Init` | src/keccak.c:1424-1458 | the empty message, with six lanes of ones, and the block size |
| `KeccakContext.Context.Update` | src/keccak.c:1460-1495 | the context stands at the concatenation of all data, whatever the splits: the fold over whole blocks, and the rest in the buffer |
| `KeccakContext.FinalBytes` | src/keccak.c:1510-1526 | the three cases all give the extra bits followed by pad10*1 |
| `KeccakContext.FoldFlipped` | src/keccak.c:1475-1492 | over any message the code's fold is the plain sponge's, complemented |
| `KeccakContext.FinalState` | src/keccak.c:1510-1534 | after the close the lanes, complemented back, are the sponge's on the padded message |
| `KeccakContext.Output` | src/keccak.c:1535-1537 | the first bytes of the state, bit by bit |
| `KeccakContext.Context.Close` | src/keccak.c:1499-1539 | the digest is that of the Keccak sponge of sections 4 and 5.1 of FIPS 202 on message and extra bits; the context is as new |
| `KeccakContext.Digest` | src/keccak.c:1602-1624 | initialisation, data and close with the table of the code give the Keccak digest with the constants of FIPS 202, for all four sizes |
| `Streaming.FoldAppend` | src/blake.c:861-897 | more data depends on the earlier message only through the state and the buffered rest |
| `Buffering.Absorber.Update` | src/blake.c:861-897 | the buffered loop is the fold over whole blocks plus the rest, with the pointer below the block size, however the data is split |
| `Octets.BigEndianValue` | src/blake.c:928-945 | the bits of a length field, most significant first, have the value of the number modulo 2^n |
| `Octets.EncodeValue` | src/blake.c:928-945 | so have the bits of its bytes |
| `BlakeContext.TickCounts` | src/blake.c:889-890 | the two-word increment counts whole blocks exactly, modulo two words |
| `BlakeContext.BiasLands` | src/blake.c:919-927 | in all three bias cases the next increment lands on the number of message bits, or on 0 if none is left |
| `BlakeContext.WholeBlocks` | src/blake.c:888-893 | over whole blocks the chain values and the counts are those of the BLAKE iteration |
| `BlakeContext.ShortBytes` | src/blake.c:928-934 | marker, zeros and length when they fit the block |
| `BlakeContext.LongBytes` | src/blake.c:935-945 | the same over two blocks |
| `BlakeContext.SecondOfTwo` | src/blake.c:937-945 | the block without message bits is compressed with the count 0 |
| `BlakeContext.Close` | src/blake.c:899-950 | the digest is that of BLAKE on message and extra bits, for both widths; the context is as new |
| `JhContext.WholeBlocks` | src/jh.c:868-891 | the chain value is the plain fold, the counter the number of blocks modulo 2^64 |
| `JhContext.Length` | src/jh.c:917-921 | the two words encode 512 * block_count + 8 * ptr + n |
| `JhContext.FieldIs` | src/jh.c:882-919 | that is the number of bits modulo 2^73 |
| `JhContext.PaddingsAgree` | src/jh.c:896-921 | the padding written is that of JH if and only if the number of bits is below 2^73, modulo 2^128 |
| `JhContext.FinalBytes` | src/jh.c:909-921 | padding of JH; with the buffered bytes always whole blocks |
| `JhContext.Close` | src/jh.c:896-943 | the digest is that of JH with the length modulo 2^73 on message and extra bits, hence that of JH for messages below 2^73 bits; the context is as new |
| `StakeModifier.SelectionInterval` | src/kernel.cpp:49-61 | the sum of the 64 sections |
| `StakeModifier.SectionsGrow` | src/kernel.cpp:49-54 | the sections grow from 20 to 60 seconds |
| `StakeModifier.LastModifier` | src/kernel.cpp:36-47 | the nearest generating block, failing exactly if there is none |
| `StakeModifier.SelectBlock` | src/kernel.cpp:63-101 | the first least selection hash among the eligible candidates; found exactly if one is unselected |
| `StakeModifier.StakeIsFavoured` | src/kernel.cpp:83-92 | for 256-bit hashes a proof-of-stake block has a selection hash of 224 bits, the hash of its proof divided by 2^32; the others keep the whole hash of the block |
| `StakeModifier.StakeWins` | src/kernel.cpp:83-97 | another block is picked over an eligible proof-of-stake block only with a hash below 2^224 |
| `StakeModifier.PickByTime` | src/kernel.cpp:69-97 | the pick is past the stop only if all candidates left are, and then it is the earliest by time and hash |
| `StakeModifier.OneLeft` | src/kernel.cpp:140-146 | no round of the selection can run out of candidates |
| `StakeModifier.SelectAll` | src/kernel.cpp:137-153 | min(64, n) rounds, each picking by its own stop; bit r is the entropy bit of pick r, higher bits are 0 |
| `StakeModifier.PicksDiffer` | src/kernel.cpp:140-150 | no block is picked twice |
| `StakeModifier.SelectionUnique` | src/kernel.cpp:140-150 | the candidates determine the picks |
| `StakeModifier.SelectedOnce` | src/kernel.cpp:137-153 | the candidates determine the new modifier |
| `StakeModifier.Gather` | src/kernel.cpp:127-134 | the recent blocks of the chain, each once |
| `StakeModifier.StartIs` | src/kernel.cpp:124-126 | the interval starts all 64 sections before the last full minute of the block |
| `StakeModifier.OrderedUnique` | src/kernel.cpp:127-134 | the sorted list of candidates is determined by the recent blocks |
| `StakeModifier.GeneratedOnce` | src/kernel.cpp:120-153 | the chain determines the modifier it generates |
| `StakeModifier.ComputeNext` | src/kernel.cpp:103-183 | fails exactly if no block of the chain generated a modifier; new exactly in a new interval, and then made of the selected blocks |
| `StakeModifier.NextOnce` | src/kernel.cpp:103-183 | the chain determines the next modifier and whether it is new |
| `StakeModifier.KernelModifier` | src/kernel.cpp:185-215 | the modifier of the first generating block a selection interval later, failing exactly if there is none |
| `StakeKernel.CheckKernel` | src/kernel.cpp:240-310 | check mode decides the one time; search mode finds the latest tried time that meets the target of the start |
| `StakeKernel.CoinDaysRoundDown` | src/kernel.cpp:227-227 | the coin days of a product that is not negative are the whole ones in it: at most the product, and one more would exceed it |
| `StakeKernel.CoinDaysMirrored` | src/kernel.cpp:227-227 | the mirror image for negative products |
| `StakeKernel.WeightCounts` | src/kernel.cpp:23-27 | the weight counts seconds from a quarter of an hour on, for at most 25 days |
| `StakeKernel.CheckedTarget` | src/kernel.cpp:224-268 | the check accepts exactly the hashes below the target per coin day times the greatest number of whole coin days earned |
| `StakeKernel.LatestFirst` | src/kernel.cpp:285-287 | without a wrap the search tries the times up to the drift ahead, each once, the latest first |
| `StakeKernel.CoinDaysMonotone` | src/kernel.cpp:227-228 | truncated coin days grow with the weight |
| `StakeKernel.SearchThenCheck` | src/kernel.cpp:272-291 | a generous time that the search finds passes the check with the same hash |
| `StakeKernel.AgreesExactly` | src/kernel.cpp:240-310 | search and check agree for every hash function if and only if every tried time is generous |
| `StakeKernel.SearchAndCheck` | src/kernel.cpp:240-310 | searching and then checking the time found: under the caller's conditions the check accepts what the search found, with the same hash |
| `StakeKernel.SearchFoolsCheck` | src/kernel.cpp:272-291 | a time that is not generous is found and then refused, for some hash function |
| `StakeKernel.SafeSearch` | src/kernel.cpp:272-291 | without wrap, with value and either target or weight not negative, every tried time is generous |
| `StakeKernel.NegativeTargetDisagrees` | src/kernel.cpp:224-238 | a concrete disagreement with negative target and weight |
| `StakeKernel.WrappedTimeDisagrees` | src/kernel.cpp:248-287 | a concrete disagreement at the wrap of the time |
| `BlockTree.WalkMeetsAncestor` | src/checkpoints.cpp:97-106 | walking down to a block's height meets it exactly if it is an ancestor |
| `CheckpointNode.Node.Validate` | src/checkpoints.cpp:72-107 | true exactly for a higher descendant; a conflicting hash, and no other, is recorded as invalid |
| `CheckpointNode.Node.Write` | src/checkpoints.cpp:109-123 | the checkpoint changes exactly if the database committed it |
| `CheckpointNode.Node.ProcessMessage` | src/checkpoints.cpp:341-388 | the exact new state; adopted exactly if signed, a higher descendant, connected and written |
| `CheckpointNode.Node.Accept` | src/checkpoints.cpp:125-166 | the exact new state; adopted exactly if pending, a higher descendant, connected and written |
| `CheckpointNode.Node.CheckSync` | src/checkpoints.cpp:177-202 | on the main network, above the checkpoint: exactly if it is the parent or an ancestor of it; below: the exact answers |
| `Checkpoints.StepAdvances` | src/checkpoints.cpp:125-166 | a step keeps the state well-formed and moves the checkpoint only to a higher descendant |
| `Checkpoints.AdoptsExactly` | src/checkpoints.cpp:341-388 | a message is adopted exactly if it is signed, advances the checkpoint, and its block could be connected and stored |
| `Checkpoints.PendingIsAdopted` | src/checkpoints.cpp:125-166 | a message ahead of its block waits, and is adopted once the block has arrived |
| `Checkpoints.RunOk` | src/checkpoints.cpp:341-388 | in every state of a run the checkpoint is indexed and the stored messages carry its hashes |
| `Checkpoints.RunAdvances` | src/checkpoints.cpp:341-388 | along every run on a growing tree the checkpoints form a chain of ancestors of strictly rising height |
| `Checkpoints.PassingDescends` | src/checkpoints.cpp:177-202 | a block above the checkpoint that passes descends from every checkpoint adopted earlier in the run |
| `Bignum.MpiRoundTrip` | src/bignum.h:288-312 | reading the MPI form of any number gives the number |
| `Bignum.VchRoundTrip` | src/bignum.h:288-312 | `setvch` undoes `getvch` |
| `Bignum.CompactRoundsDown` | src/bignum.h:314-337 | a compact target is the number rounded down by less than 256^(size-3), exactly for sizes up to 3 |
| `Bignum.CompactStable` | src/bignum.h:314-337 | encoding the rounded number gives the same word |
| `Bignum.CompactMonotone` | src/bignum.h:326-337 | the compact form keeps the order |
| `Base58.LetterIs` | src/base58.h:10-10 | the 58 letters, in their order |
| `Base58.SpacesAre` | src/base58.h:58-77 | white space is tab, line feed, vertical tab, form feed, carriage return and space |
| `Base58.Encode` | src/base58.h:12-43 | leading zeros as letters, then the number in base 58 |
| `Base58.Decode` | src/base58.h:50-89 | succeeds exactly for text over the alphabet with white space around it, with the bytes it stands for |
| `Base58.DecodeEncoded` | src/base58.h:12-89 | decoding undoes encoding, for every byte string |
| `Base58.EncodeDecoded` | src/base58.h:12-89 | encoding undoes decoding, for every text over the alphabet |
| `Base58.EncodeCheck` | src/base58.h:96-103 | the encoding of the bytes with four bytes of their hash |
| `Base58.DecodeCheck` | src/base58.h:105-122 | succeeds exactly for sealed bytes, and returns them |
| `Base58.Data.SetString` | src/base58.h:164-180 | succeeds exactly for sealed data that is not empty; otherwise clears |
| `Base58.Data.ToString` | src/base58.h:187-192 | the sealed text of version and data |
| `Base58.WriteThenRead` | src/base58.h:164-192 | reading what was written changes nothing |
| `Base58.ReadThenWrite` | src/base58.h:164-192 | writing what was read from a text over the alphabet gives the text |
| `Pbkdf2Spec.XorTwice` | src/pbkdf2.cpp:108-109 | adding a digest twice undoes it, adding it to itself leaves zeros |
| `Pbkdf2Spec.SumUndone` | src/pbkdf2.cpp:100-110 | adding U_c once more to the sum gives the sum before |
| `Pbkdf2Spec.PadBytes` | src/pbkdf2.cpp:38-50 | the two pads are the bytes 0x36 and 0x5c |
| `Pbkdf2.Init` | src/pbkdf2.cpp:24-53 | the two padded key blocks of RFC 2104, for every key length |
| `Pbkdf2.Final` | src/pbkdf2.cpp:62-74 | HMAC of section 2 of RFC 2104 |
| `Pbkdf2.Iterate` | src/pbkdf2.cpp:100-110 | the sum in place is U_1 to U_c added |
| `Pbkdf2.Block` | src/pbkdf2.cpp:94-110 | T_i, from a copy of the salted context |
| `Pbkdf2.Derive` | src/pbkdf2.cpp:76-119 | the derived key of section 5.2 of RFC 8018 in the first dkLen places, the rest of the buffer unchanged |
| `Bloom.BloomFilter.Default` | src/bloom.h:39-39 | the filter a peer starts with: no data, marked full |
| `Bloom.BloomFilter.Load` | src/main.cpp:4071-4085 | a filter from the network with any data, even none, and recomputed marks |
| `Bloom.BloomFilter.Insert` | src/bloom.cpp:33-44 | sets exactly the places of the key, unless the filter is full |
| `Bloom.BloomFilter.Has` | src/bloom.cpp:60-74 | true exactly if full, or not empty with all places set |
| `Bloom.BloomFilter.UpdateEmptyFull` | src/bloom.cpp:159-170 | the two marks tell exactly whether all bits, or none, are set |
| `Bloom.BloomFilter.IsRelevantAndUpdate` | src/bloom.cpp:95-157 | relevant exactly by hash, output, outpoint or input; the new filter is the one with the outpoints recorded |
| `BloomSpec.ContainsByBits` | src/bloom.cpp:60-74 | contained exactly if the bit at the hash modulo the size is set for every hash function |
| `BloomSpec.InsertByBits` | src/bloom.cpp:33-44 | an insertion sets exactly those bits in addition |
| `BloomSpec.ContainsExactly` | src/bloom.cpp:60-74 | the marks are mere short cuts if and only if there is a hash function, no mark for empty or a mark for full |
| `BloomSpec.InsertedStays` | src/bloom.cpp:33-74 | an inserted key is contained after every run, if and only if there is a hash function, the filter is full or some bit is set |
| `BloomSpec.SpendIsRelevant` | src/bloom.cpp:95-157 | with BLOOM_UPDATE_ALL, a transaction that spends a matched output is relevant after every run, under the same condition, if and only if |
| `LimitedMap.Limited.Insert` | src/limitedmap.h:31-44 | a known key changes nothing; a full map loses an older entry of smallest value; below N it stays below N |
| `LimitedMap.NothingToEvict` | src/limitedmap.h:36-40 | a full map has no link to evict exactly if its limit is 1 |
| `LimitedMap.Limited.FindLink` | src/limitedmap.h:50-59 | the search in the equal range always succeeds: the assertion behind it is unreachable |
| `LimitedMap.Limited.Erase` | src/limitedmap.h:45-61 | removes the key and its link |
| `LimitedMap.Limited.Update` | src/limitedmap.h:62-81 | changes the value and moves the link |
| `LimitedMap.Limited.SetMaxSize` | src/limitedmap.h:83-93 | keeps the largest entries, at most s of them |
| `LimitedMapSpec.RemoveKeeps` | src/limitedmap.h:45-57 | removing an entry with its link keeps the two maps inverse |
| `LimitedMapSpec.AddKeeps` | src/limitedmap.h:41-41 | adding an entry with its link, in the order of a multimap, keeps the two maps inverse |

## Left out

- `CAddrMan::Select_` and `GetChance`: loops that end only with probability 1, with floating point weights.
- `AddrStore.Unserialize`: assumes at most 256 buckets in the file, since the code indexes its tables unchecked.
- The address manager's integers are unbounded: overflow of ids and attempt counts is not modelled, and
  `nServices` is the set of its bits. The file is a record, not bytes; versions of the format are left out.
- Which worker a notification of `condWorker` wakes is not modelled: a waiting thread may wake at any time.
- The 32-bit build of Keccak and its other unroll factors; local copies of the state are the state itself.
- The compression functions of BLAKE and JH, SHA-256 and the murmur hash are parameters.
- `BlakeContext.Close` and `JhContext.Close` include the initialisation that every caller of the close routine
  does next; `BlakeContext.Close` models both widths by one parameter.
- Debug output, `mapHashedBlocks` and the debug counter of the stake kernel. The lookup failure in
  `SelectBlockFromCandidates` is proved not to occur for chains whose blocks are indexed.
- `StakeModifier.Sort` stands for the reversal and the library sort; the result is determined by the order of
  time and hash.
- Signature checks, disk and database of the checkpoints are outcomes given from outside;
  `ResetSyncCheckpoint`, `AutoSelectSyncCheckpoint` and `WantedByPendingSyncCheckpoint` are not modelled.
- The length prefix of the MPI format, and big numbers of 2^32 bytes or more. Compact targets of more than 255
  bytes, whose size does not fit the word.
- Base 58 text is a string without its terminating zero; the alphabet is given by ranges of letters.
- Scripts are the lists of their data pushes, and outpoints their serialized keys, in the Bloom filter; its
  constructor's arithmetic with logarithms.
- `LimitedMap.Limited.SetMaxSize`: no bound is claimed for later insertions, since the code tests for equality
  after inserting.
- Other hash functions (groestl, luffa, cubehash, echo, hamsi, bmw, fugue), keys and signatures, wallet, RPC,
  startup and user interface: tables, foreign code or plumbing.
