# Verified model of the shared cache server

A Dafny model of the code-cache server: the memory-mapped cache with its in-place compactor, the checksum, the
SHA-256 used to name routes, and the shared-memory protocol between clients and server. Check everything with
`dafny verify dfyconfig.toml`.

## How it is laid out

| files | content |
|---|---|
| `Words`, `CStrings`, `Messages` | wrapping machine words and bit operators on numbers, C strings, message layouts |
| `Compaction`, `Store` | the cache as a value: where compaction puts blobs, what its moves do, the four operations |
| `Dictionary`, `Refinement` | the bounded finite map the cache is meant to be, and the cache against it over every run |
| `ExactRuns`, `UnsafeRuns`, `OrderlyRuns`, `DisorderlyRun` | the runs in which the cache is exactly that map, why no others are, a way to stay within them, and a run outside |
| `SharedCache` | the class with its fields and arrays updated in place, proved against `Store` |
| `Valuation`, `Checksum` | exponents of two, and exactly what the checksum detects |
| `Fips180` | SHA-256 as FIPS 180-4 defines it, independent of the source |
| `Primes`, `RootConstants`, `WordFunctions`, `DigestRelation` | what that definition means, said without it: constants as roots of primes, functions digit by digit, the digest as a relation |
| `Compression`, `LengthLimbs`, `Hasher`, `RouteHash` | picosha2.h, proved against `Fips180` |
| `CacheKeys`, `ServerSpec`, `EndToEnd`, `Server` | entry names, dispatch and handlers, what clients get back, the classes of server, router and client |
| `Ipc`, `IpcRuns`, `Shutdown` | the protocol as a step system with every interleaving, pieces of runs, and what stop does |
| `Discipline`, `Completion`, `Races` | exactly which runs deliver, that they can always be completed, and runs that do not |
| `Responses`, `CallGuard`, `CrossedAnswers` | the way back to the client, exactly when a message may be begun, and two runs against the server's routes |
| `ServerAnswers`, `Session`, `Conversation` | which messages are answered, and the whole path from client to cache and back |

Where the source updates state in place there is a class or a method on arrays, and its contract equates the new state
with a function of the old one; the results about runs are lemmas about those functions. Slot count, file size and
start of the data area are parameters, fixed by `SharedCacheClass.Instance`.

## What turned out not to hold, and when it does

- **The cache is not a map in every run.** Compaction visits slots in slot order. If a blob has to move right to its
  place, an earlier slot is copied over it (`Compaction.CompactionSafeIff` gives the exact condition). A run
  from an empty cache is the map, for all data, exactly when no put compacts such a blob without replacing it (`UnsafeRuns.SafeRunIff`).
  `DisorderlyRun.WrongBytesReturned` is a run, for every cache, in which `Get` returns bytes never stored under the key, `OrderlyRuns.PutKeepsOrderIff`
  says which puts bring such a layout about, and `Refinement.EveryRunPlausible` is what still holds in all runs.
- **`mutex` does not exclude.** The client posts it and the server posts it again after every turn, contrary to the
  comments that announce exclusive access (src/client/client_test.cpp:67, src/server/cache_server.cpp:354). Each turn
  admits one client more (`Ipc.HoldersBounded`, reached for every number of turns by `IpcRuns.BoundReached`).
- **A message can be lost**, or another be dispatched in its place. Flags raised over a raised flag account for missing
  dispatches (`Discipline.CountIff`, `Races.MessageLost`), but the numbers can agree and one message be dispatched twice
  and another never (`Races.DispatchedTwice`). Everything arrives once, in order and unaltered exactly when no id is taken
  before all earlier messages are dispatched and no flag raised while it is up (`Discipline.DeliveredIff`).
- **A client can take another's answer**, since ids are counted per process and there is one response buffer
  (`CrossedAnswers.AnothersAnswer`). `CallGuard.MayCallIff` says exactly when a message may be begun.
- **The checksum misses some swaps**: `Checksums.SwapUndetectedIff` says exactly which.
- The length counter of the hasher needs no bound on the chunk size: a wrap of its first addition loses a multiple of
  2^64 (`LengthLimbs.AddToDataLength`).

## Model

| member | source | states |
|---|---|---|
| `Compaction.CompactionSafeIff` | src/m_cache/m_v8_shared_cache.cc:240-266 | Compaction keeps every live blob byte for byte, for every content of the file, if and only if no live blob lies left of the place it is compacted to (all slacks non-negative) |
| `Compaction.MovesLeftPreserves` | src/m_cache/m_v8_shared_cache.cc:247-262 | With no blob moving right, all the overlapping moves together deliver every live blob whole to its new offset |
| `Compaction.ArrivesWhole` | src/m_cache/m_v8_shared_cache.cc:253-258 | One blob that does not move right is still intact when its slot is visited and arrives whole, whatever the others do |
| `Compaction.FirstByteLost` | src/m_cache/m_v8_shared_cache.cc:247-262 | A live blob that would have to move right arrives with a zero in front, whatever byte it began with, when the other live blobs hold zeros |
| `Compaction.MoveRightDamages` | src/m_cache/m_v8_shared_cache.cc:247-262 | For any disjoint layout in which some live blob would move right, a concrete content of the file loses that very blob |
| `Compaction.MemFrame` | src/m_cache/m_v8_shared_cache.cc:253-258 | Compaction writes only between the start of the data area and the end of the compacted blobs, so never into the headers |
| `Compaction.PlacedStays` | src/m_cache/m_v8_shared_cache.cc:247-262 | What an earlier move has placed is never touched by a later one |
| `Store.CompactedValid` | src/m_cache/m_v8_shared_cache.cc:240-266 | In any reachable layout compaction keeps all invariants, never raises next_offset, leaves it at base plus the live bytes, and puts every live blob at slack zero |
| `Store.PutValid` | src/m_cache/m_v8_shared_cache.cc:130-179 | Put, successful or not, keeps: extents disjoint and inside [base, next_offset], next_offset within the file, keys distinct, entry_count equal to the used slots, live bytes packed |
| `Store.RemoveValid` | src/m_cache/m_v8_shared_cache.cc:207-229 | Remove keeps the same invariants, succeeds exactly when the search finds the key, and then zeroes that slot, counts one entry less and changes nothing else |
| `Store.ClearedValid` | src/m_cache/m_v8_shared_cache.cc:69-80 | InitializeCache establishes the invariants whatever the bytes of the file, with no entries, next_offset at the start of the data area, every slot zeroed and the bytes unchanged |
| `Store.PutSucceedsIff` | src/m_cache/m_v8_shared_cache.cc:130-159 | Put succeeds exactly when there is data, live bytes (old blob of the key included) plus data fit the data area, and the key is present or a slot is free; fragmentation never matters |
| `Store.FindEntryIff` | src/m_cache/m_v8_shared_cache.cc:101-110 | The strncmp search finds a slot exactly when that slot is used and carries the key cut at its first zero and at 255 characters |
| `Store.NameOfKeyField` | src/m_cache/m_v8_shared_cache.cc:163-164 | A key stored with strncpy and a final zero reads back as the key cut to 255 characters |
| `CStrings.StrncmpIffCut` | src/m_cache/m_v8_shared_cache.cc:104-105 | strncmp over n characters reports equality exactly when both strings, cut at their terminator and at n, are the same |
| `Refinement.EveryRunPlausible` | src/m_cache/m_v8_shared_cache.cc:130-237 | Over every run of Put/Get/Remove/Clear, even with damaging compactions: all outcomes are those of a bounded finite map, except that Get may fail or bring bytes of the same length and checksum as the last ones stored |
| `Refinement.StepTracks` | src/m_cache/m_v8_shared_cache.cc:130-237 | One operation of that refinement, with no hypothesis on the order of blobs |
| `Refinement.PutTracks` | src/m_cache/m_v8_shared_cache.cc:130-179 | Put changes presence, lengths, checksums, entry count and total size as the map says, and succeeds exactly when the map has room |
| `ExactRuns.SafeRunExact` | src/m_cache/m_v8_shared_cache.cc:130-266 | Over every safe run, one in which no compaction has to move right a live blob that its own put does not replace, the outcomes equal those of the bounded map: Get returns exactly the last bytes stored and fails exactly on absent keys |
| `UnsafeRuns.SafeRunIff` | src/m_cache/m_v8_shared_cache.cc:130-266 | The exact condition: a run from an empty cache is safe if and only if, whatever bytes of the same lengths its puts store and after however many operations, every outcome and that of any Get equals the map's |
| `UnsafeRuns.StepSafeIff` | src/m_cache/m_v8_shared_cache.cc:130-266 | The same for one operation on any layout satisfying the invariants: it is safe if and only if it keeps every content of that layout in step with its map |
| `UnsafeRuns.VictimLost` | src/m_cache/m_v8_shared_cache.cc:240-266 | If a put compacts and a live blob it does not replace has to move right, the next Get under that name does not bring the bytes stored, where they are ones among zeros |
| `UnsafeRuns.StepSame` | src/m_cache/m_v8_shared_cache.cc:130-266 | Where an operation leaves the blobs, and so whether a run is safe, depends on keys and lengths only, never on a byte stored |
| `OrderlyRuns.OrderlyRunSafe` | src/m_cache/m_v8_shared_cache.cc:138-174 | A way to stay safe: puts that leave room for later live slots keep all slacks non-negative, so the run is safe |
| `OrderlyRuns.OrderlyRunExact` | src/m_cache/m_v8_shared_cache.cc:130-266 | Hence over every such run from a layout in order the outcomes equal those of the bounded map |
| `ExactRuns.StepExact` | src/m_cache/m_v8_shared_cache.cc:130-266 | One operation of the exact refinement |
| `OrderlyRuns.PutKeepsOrderIff` | src/m_cache/m_v8_shared_cache.cc:138-174 | A put leaves every slack non-negative if and only if, after its own compaction, each later live slot has slack at least the growth of the slot it fills |
| `OrderlyRuns.RemoveKeepsOrder` | src/m_cache/m_v8_shared_cache.cc:216-221 | Remove never makes a slack negative |
| `ExactRuns.GetExact` | src/m_cache/m_v8_shared_cache.cc:181-205 | With slot contents in step with the map, the checksum test never rejects and Get yields the stored bytes |
| `ExactRuns.InitiallyEmpty` | src/m_cache/m_v8_shared_cache.cc:69-80 | A freshly initialised cache satisfies the hypotheses of the run results, as the empty map |
| `OrderlyRuns.HandedOutRangeStable` | src/m_cache/m_v8_shared_cache.cc:193-204 | After a successful Get the range it handed out keeps its bytes through any removes, gets and non-compacting puts, also of the same key |
| `DisorderlyRun.WrongBytesReturned` | src/m_cache/m_v8_shared_cache.cc:130-266 | For every cache of at least two slots and four bytes: six operations from empty, not a safe run, after which Get succeeds with bytes never stored under the key; refilling a freed low slot breaks the order and the checksums collide |
| `DisorderlyRun.InTheSource` | src/m_cache/m_v8_shared_cache.h:13-14 | In particular with 1024 slots and 104857600 bytes |
| `SharedCacheClass.SharedCache.CompactCache` | src/m_cache/m_v8_shared_cache.cc:240-266 | The in-place loop, in 32-bit wrapping arithmetic, does exactly what the compaction function says of slots, bytes and next_offset |
| `SharedCacheClass.SharedCache.CompactEntry` | src/m_cache/m_v8_shared_cache.cc:248-261 | One iteration of that loop; no offset computation wraps |
| `SharedCacheClass.SharedCache.Put` | src/m_cache/m_v8_shared_cache.cc:130-179 | The in-place Put: refuses null or empty data unchanged, otherwise result and whole state are those of the put function; the data may be a range of the mapped file, such as Get hands out, and is then what stands there after the compaction |
| `SharedCacheClass.SharedCache.Get` | src/m_cache/m_v8_shared_cache.cc:181-205 | Get returns true and the range exactly when key and checksum match |
| `SharedCacheClass.SharedCache.Remove` | src/m_cache/m_v8_shared_cache.cc:207-229 | The in-place Remove has the result and state of the remove function; the slot found is zeroed and counted off |
| `SharedCacheClass.SharedCache.Clear` | src/m_cache/m_v8_shared_cache.cc:231-237 | Clear zeroes slots and header, next_offset returning to the start of the data area, and leaves the bytes |
| `SharedCacheClass.SharedCache.InitializeCache` | src/m_cache/m_v8_shared_cache.cc:69-80 | Magic number, version, header and all slots are reset, next_offset to the start of the data area, and the invariants hold |
| `SharedCacheClass.SharedCache.constructor` | src/m_cache/m_v8_shared_cache.cc:34-66 | Mapping a file keeps its content if it bears magic number and version, and initialises it otherwise; the invariants hold afterwards unless a file kept violated them |
| `SharedCacheClass.SharedCache.FindEntry` | src/m_cache/m_v8_shared_cache.cc:101-110 | The loop returns the first matching used slot, or -1 |
| `SharedCacheClass.SharedCache.FindFreeEntry` | src/m_cache/m_v8_shared_cache.cc:112-120 | The loop returns the lowest unused slot, or -1 |
| `SharedCacheClass.Instance` | src/m_cache/m_v8_shared_cache.h:13-54 | With the constants of the header the data area starts at 540704 of 104857600 bytes, with 1024 slots; the file is taken over or, if new, an empty cache |
| `Checksums.CalculateChecksum` | src/m_cache/m_v8_shared_cache.cc:122-128 | The loop computes the checksum function of the byte range |
| `Checksums.ChecksumIsPolynomial` | src/m_cache/m_v8_shared_cache.cc:122-128 | The checksum is the sum of data[i] * 33^(n-1-i) modulo 2^32 |
| `Checksums.ChecksumAppend` | src/m_cache/m_v8_shared_cache.cc:122-128 | The checksum of a + b is cs(a) * 33^|b| + cs(b) modulo 2^32 |
| `Checksums.OneByteDetected` | src/m_cache/m_v8_shared_cache.cc:122-128 | Replacing one byte keeps the checksum if and only if the byte is the same, for data of any length |
| `Checksums.CommonSuffix` | src/m_cache/m_v8_shared_cache.cc:122-128 | A common suffix neither hides nor creates a difference, as 33 is invertible modulo 2^32 |
| `Checksums.SwapUndetectedIff` | src/m_cache/m_v8_shared_cache.cc:122-128 | Swapping two bytes goes unnoticed if and only if they are equal or the exponents of two in their difference and in their distance add up to at least 27 |
| `Checksums.NearSwapDetected` | src/m_cache/m_v8_shared_cache.cc:122-128 | Any swap of unequal bytes fewer than 2^20 positions apart changes the checksum |
| `Checksums.FarSwapUndetected` | src/m_cache/m_v8_shared_cache.cc:122-128 | The bound is tight: at distance 2^20, bytes 128 and 0 can be exchanged unnoticed |
| `Valuation.V2Pow33` | src/m_cache/m_v8_shared_cache.cc:125 | The exponent of two in 33^k - 1 is 5 plus that in k |
| `Compression.RoundAgrees` | src/m_cache/picosha2.h:117-128 | A round computed in 64-bit words with only a and e masked is the round of section 6.2.2 of FIPS 180-4 |
| `Compression.TempsDoNotWrap` | src/m_cache/picosha2.h:118-119 | temp1 and temp2 are the plain sums of their terms and stay, together with d, below 2^64 |
| `Compression.RotrIsRotation` | src/m_cache/picosha2.h:73-76 | The shifted and masked 64-bit expression is the 32-bit rotation |
| `Compression.ChIsCh` | src/m_cache/picosha2.h:67 | The 64-bit complement in ch is invisible for 32-bit arguments |
| `Compression.ScheduleAgrees` | src/m_cache/picosha2.h:103-106 | The schedule step masks a 64-bit sum to the 32-bit recurrence |
| `Compression.WordAgrees` | src/m_cache/picosha2.h:97-102 | Shifting and or-ing four bytes reads a big-endian word |
| `Compression.Hash256Block` | src/m_cache/picosha2.h:91-140 | The block function turns the eight words into their FIPS 180-4 compression with the block: schedule, 64 rounds and final additions satisfy the equations with every index a number |
| `Compression.PrepareSchedule` | src/m_cache/picosha2.h:95-106 | In the array returned, entries 0 to 15 are the big-endian words of the block, and entry t is sigma1(w[t-2]) + w[t-7] + sigma0(w[t-15]) + w[t-16] modulo 2^32 |
| `Compression.RunRounds` | src/m_cache/picosha2.h:108-128 | The 64 iterations reach the last values of the sequences of a and e that the round equations define |
| `RootConstants.RoundConstantIsCubeRoot` | src/m_cache/picosha2.h:50-61 | For every t < 64, with p the prime that has t primes below it (there is one) and i the integer part of its cube root: i * 2^32 plus the round constant is the integer part of 2^32 times that root |
| `RootConstants.InitialHashIsSquareRoots` | src/m_cache/picosha2.h:63-65 | Each of the eight initial words is made likewise of the square root of its prime |
| `Primes.NthPrimeUnique` | src/m_cache/picosha2.h:50-65 | There is one prime with t primes below it |
| `WordFunctions.ChDigits` | src/m_cache/picosha2.h:67 | Digit i of Ch is that of y where x has a one, that of z elsewhere |
| `WordFunctions.MajDigits` | src/m_cache/picosha2.h:69-71 | Digit i of Maj is the one that at least two of the three have |
| `WordFunctions.RotationDigit` | src/m_cache/picosha2.h:73-76 | Digit i of a rotation by n is digit i + n modulo 32 |
| `WordFunctions.BigSigma0Digits` | src/m_cache/picosha2.h:78 | Digit i is the parity of the digits 2, 13 and 22 places up, cyclically |
| `WordFunctions.BigSigma1Digits` | src/m_cache/picosha2.h:80 | The same with 6, 11 and 25 |
| `WordFunctions.SmallSigma0Digits` | src/m_cache/picosha2.h:87 | The same with 7 and 18, cyclically, and 3 without wrapping |
| `WordFunctions.SmallSigma1Digits` | src/m_cache/picosha2.h:89 | The same with 17 and 19, cyclically, and 10 without wrapping |
| `WordFunctions.BitIsParity` | src/m_cache/picosha2.h:67-89 | Digit i of a number is the parity of its quotient by 2^i |
| `WordFunctions.DigitsDetermine` | src/m_cache/picosha2.h:67-89 | Digits determine the word, so the functions are fixed by what is said of their digits |
| `DigestRelation.ScheduleUnique` | src/m_cache/picosha2.h:95-106 | Any 64 words that satisfy the literal recurrence are the message schedule |
| `DigestRelation.RoundsFollow` | src/m_cache/picosha2.h:108-128 | Any sequences of a and e that satisfy the round equations run through the working variables, from the first round to the last |
| `DigestRelation.CompressionIff` | src/m_cache/picosha2.h:91-140 | A hash value follows another over a block by these equations if and only if it is the compression |
| `DigestRelation.PaddingIff` | src/m_cache/picosha2.h:205-233 | A sequence is the padded message if and only if it is the message, the byte 128, zeros, and eight bytes that spell 8 times the length modulo 2^64, in the fewest blocks of 64 bytes |
| `DigestRelation.DigestIff` | src/m_cache/picosha2.h:299-307 | The digest as a relation (padding, a chain of hash values, big-endian output) is the function: both directions |
| `Words.BitwiseMeaning` | src/m_cache/picosha2.h:46-76 | The numeric operators used for &, | and ^ act digit by digit |
| `Words.ComplementMeaning` | src/m_cache/picosha2.h:67 | The numeric operator used for ~ inverts every digit |
| `LengthLimbs.AddToDataLength` | src/m_cache/picosha2.h:246-258 | For every 64-bit addend the four limbs stay below 2^16 and their value grows by it modulo 2^64 |
| `LengthLimbs.WriteDataBitLength` | src/m_cache/picosha2.h:259-279 | Eight times the byte count modulo 2^64 is written as eight big-endian bytes, nothing else changes |
| `LengthLimbs.ShiftedValue` | src/m_cache/picosha2.h:264-272 | The limb-wise shift with carries multiplies the value by eight modulo 2^64 |
| `LengthLimbs.LimbsUnique` | src/m_cache/picosha2.h:281 | Limbs below 2^16 are determined by the number they hold |
| `Hashing.ChunksInFields` | src/m_cache/picosha2.h:193-203 | Two hashers that absorbed the same bytes in different chunks are equal in every field: buffer, limbs and words |
| `Hashing.ChunkIndependence` | src/m_cache/picosha2.h:193-203 | For any way of cutting a message into chunks, the hasher state depends only on the concatenation |
| `Hashing.ProcessedStateOf` | src/m_cache/picosha2.h:193-203 | Processing a chunk after m leads to the state of m plus the chunk: folded complete blocks, tail below 64 bytes, length modulo 2^64 |
| `Hashing.FinishedIsPadded` | src/m_cache/picosha2.h:205-233 | In both branches of finish the final words are the hash of the message padded as in section 5.1.1 of FIPS 180-4 |
| `Hashing.Hasher.Process` | src/m_cache/picosha2.h:193-203 | The buffer, limbs and words in place become those of the processed state |
| `Hashing.Hasher.Finish` | src/m_cache/picosha2.h:205-233 | The temporary block, its two branches and stale bytes included, yields the finished words |
| `Hashing.Hasher.GetHashBytes` | src/m_cache/picosha2.h:235-243 | The digest in big-endian order, cut to the output range, which is otherwise unchanged |
| `Hashing.Hasher.constructor` | src/m_cache/picosha2.h:184-191 | A new hasher is in the state of the empty message |
| `Hashing.Hash256` | src/m_cache/picosha2.h:299-307 | The one-shot path computes SHA-256, both as the function and as the relation of DigestRelation |
| `Hashing.Hash256Buffered` | src/m_cache/picosha2.h:309-328 | The buffered path computes the same for every positive buffer size |
| `Fips180.HashBlocksResume` | src/m_cache/picosha2.h:197-202 | Folding the compression can stop after any block and resume on the rest |
| `Fips180.PaddingInjective` | src/m_cache/picosha2.h:221-231 | Padding loses nothing: below 2^61 bytes a padded message determines the message |
| `RouteHash.OutputHex` | src/m_cache/picosha2.h:145-154 | Every byte becomes two lower-case hexadecimal digits; read by the value of the characters, the first counted sixteenfold, they give the byte |
| `RouteHash.HexSpells` | src/m_cache/picosha2.h:145-154 | A reader defined by the value of the characters recovers the bytes from their text |
| `RouteHash.HexInjective` | src/m_cache/picosha2.h:145-154 | The hexadecimal text determines the bytes |
| `RouteHash.HexIsText` | src/m_cache/picosha2.h:145-154 | The text consists of hexadecimal digits, so holds no terminator |
| `RouteHash.ComputeHashRoute` | src/server/common.h:137-140 | hash_route returns 64 hexadecimal digits that spell the SHA-256 digest of the route name |
| `RouteHash.HashRouteSpells` | src/server/common.h:137-140 | So every registered route hash spells a digest of its name |
| `Messages.StoreRequestRoundTrip` | src/server/common.h:61-91 | Hash, size and bytes written into a request are what the handler reads from it |
| `Messages.WellFormedIff` | src/server/cache_server.cpp:163-168 | A store payload is well formed if and only if it has 260 bytes of header and as many more as bytes 256 to 259 say, the least significant first; the data are those after the header |
| `Messages.RequestSizeIs` | src/server/common.h:61-65 | The size field is that number |
| `Messages.RequestHashIff` | src/server/cache_server.cpp:178-179 | A payload carries the hash t exactly when its first bytes are t, without zeros, and a zero follows within the 256 |
| `Messages.FieldRoundTrip` | src/client/client_test.cpp:73-74 | A text of at most 254 characters survives a char[256] field |
| `CacheKeys.KeyIs` | src/server/cache_server.cpp:178-446 | IR graphs are kept under the hash itself, bytecode under the nine characters bytecode_ and the hash |
| `CacheKeys.SameEntryIff` | src/server/cache_server.cpp:178-446 | Exactly when two hashes, each for IR graphs or bytecode, name the same entry of the cache |
| `CacheKeys.ProperKeysInjective` | src/server/cache_server.cpp:391-439 | For hashes of at most 246 characters, none for IR graphs starting with bytecode_, entries coincide only for the same kind and hash |
| `CacheKeys.HexHashProper` | src/server/cache_server.cpp:391-439 | Hexadecimal hashes, such as SHA-256 ones, satisfy that condition for both kinds |
| `ServerSpec.RouteFieldRoundTrip` | src/server/router.h:42-52 | The route hash a client writes is the key the router looks up |
| `ServerSpec.CacheRoutes` | src/server/cache_server.cpp:81-126 | If SHA-256 keeps the route names apart, the four cache routes lead to their handlers |
| `ServerSpec.IrRoute` | src/server/cache_server.cpp:81-126 | Likewise function/get_ir, from 256 bytes |
| `ServerSpec.UserRoutes` | src/server/cache_server.cpp:81-126 | Likewise the three user routes, from 192, 4 and 4 bytes |
| `ServerSpec.DispatchValid` | src/server/router.h:42-52 | Every message, malformed ones included, keeps the cache invariants |
| `EndToEnd.DispatchStore` | src/server/cache_server.cpp:150-486 | A message changes the cache by the put it amounts to and by nothing else |
| `EndToEnd.StoreThenFetch` | src/server/cache_server.cpp:361-486 | After a successful store, any safe messages not storing under the same name, and a fetch, the response carries exactly the stored bytes, the right size and the fetch's id |
| `EndToEnd.StoreAnswered` | src/server/cache_server.cpp:363-416 | The 129-byte response to a bytecode store reports whether the cache took it; a payload with a wrong size field is answered with failure and stores nothing |
| `EndToEnd.IrAnswered` | src/server/cache_server.cpp:196-238 | A request for IR is answered under its id with success, 146 bytes and the ten sample bytes exactly when its field reads EXISTING_FUNCTION, and with failure and 136 bytes otherwise; the cache stays |
| `EndToEnd.IrTooShort` | src/server/router.h:19-26 | With fewer than 256 bytes nothing happens |
| `EndToEnd.OthersIgnored` | src/server/router.h:42-52 | A message on any route but the five, registered or not, leaves cache and response half as they are |
| `EndToEnd.ClientReceives` | src/client/client_test.cpp:93-117 | wait_for_response with the fetch's id then returns those bytes |
| `EndToEnd.FetchMessageFetches` | src/server/cache_server.cpp:433-486 | A fetch is answered with what the cache returns, or with a failure |
| `EndToEnd.RequestBlobFitsResponse` | src/server/common.h:18-110 | A client can send a well-formed store request if and only if it stores at most 19956 bytes, and then the reply with these bytes, 136 bytes longer, is within the 20480 of a response and not refused |
| `EndToEnd.ServeBlobsFit` | src/server/cache_server.cpp:299-305 | Over every run of messages a client can send, every stored blob fits a response |
| `EndToEnd.FetchAlwaysAnswered` | src/server/cache_server.cpp:299-317 | Hence send_response never refuses a fetched blob |
| `EndToEnd.KindsNeverInterfere` | src/server/cache_server.cpp:178-446 | Over every run of stores, mixed at will, each for the other kind or under another hash (all proper), an entry stays, with its length and checksum, in any order of blobs |
| `EndToEnd.KeptByOthers` | src/server/cache_server.cpp:361-486 | Safe messages storing under other names keep an entry and its bytes |
| `ServerClasses.IPCServer.SendResponse` | src/server/cache_server.cpp:299-317 | A response is refused, without effect, if and only if it is longer than 20480 bytes; any other fills the response half and posts |
| `ServerClasses.IPCServer.HandleStore` | src/server/cache_server.cpp:150-431 | Both store handlers, with their size checks, do what the specification of the handlers says |
| `ServerClasses.IPCServer.HandleFetch` | src/server/cache_server.cpp:244-486 | Both fetch handlers do what the specification of the handlers says |
| `ServerClasses.IPCServer.DispatchMessage` | src/server/router.h:42-52 | Lookup by route hash, size check of fixed routes, and the handler called; what each of them answers is said by EndToEnd.IrAnswered, StoreAnswered and FetchMessageFetches |
| `ServerClasses.IPCServer.RunOnce` | src/server/cache_server.cpp:330-356 | One turn: a flagged message is dispatched and cleared, mutex posted; after stop nothing happens |
| `ServerClasses.IPCServer.Stop` | src/server/cache_server.cpp:488-492 | The flag is cleared and the server woken |
| `ServerClasses.IPCServer.InitializeRoutes` | src/server/cache_server.cpp:81-126 | All eight routes are registered under the hashes of their names |
| `ServerClasses.IPCRouter.RegisterRoute` | src/server/router.h:12-30 | The route hash maps to the handler guarded by the request's size |
| `ServerClasses.IPCRouter.RegisterVariableRoute` | src/server/router.h:33-39 | The route hash maps to the unguarded handler |
| `ServerClasses.SharedData.constructor` | src/server/cache_server.cpp:50-63 | Semaphores 1, 0, 0 and cleared flags |
| `ServerClasses.IPCClient.SendMessage` | src/client/client_test.cpp:55-91 | A message is refused, and nothing changed, if and only if it is longer than 20216 bytes; any other is written field by field, flagged and posted, and mutex given back |
| `ServerClasses.IPCClient.WaitForResponse` | src/client/client_test.cpp:93-117 | A response with another id is refused, leaving flag and size; the expected one is copied with its size, and both are cleared; either way response_ready is taken once |
| `Ipc.LedgerAlways` | src/client/client_test.cpp:67-88 | In every interleaving of any number of clients, the server and stop: mutex plus holders is 1 plus completed turns, wake-ups balance posts, each wake-up dispatches at most once, and messages balance flags (what stop does to the server is said by the results of Shutdown) |
| `Ipc.BeginIff` | src/client/client_test.cpp:62-67 | A client enters exactly if idle, with mutex up and at most 20216 bytes |
| `Ipc.CounterCounts` | src/server/common.h:142-146 | In every interleaving a client counts its own messages, and only these, modulo 2^32 |
| `Shutdown.StopIsSafe` | src/server/cache_server.cpp:330-356 | In every continuation of every run, once stop has cleared the flag nothing is dispatched any more but the one message of a turn that had passed its test: at most one, and none unless the server stood before the test of has_message or before the dispatch |
| `Shutdown.StopEnds` | src/server/cache_server.cpp:488-492 | Once stop has also posted, whatever came in between and comes after, the server makes at most five more moves, is never blocked, and after five has ended |
| `Shutdown.ServerEnds` | src/server/cache_server.cpp:488-492 | Left to itself it ends, from any position, within five moves |
| `Shutdown.RunningIff` | src/server/cache_server.cpp:330-356 | Over every run the server has been told to stop exactly if stop cleared the flag, and ends only then |
| `Ipc.HoldersBounded` | src/server/cache_server.cpp:330-356 | At most 1 + k clients hold mutex after k turns, at most one before the first turn; dispatches <= wake-ups <= posts |
| `IpcRuns.BoundReached` | src/server/cache_server.cpp:354-355 | After k turns k + 1 clients can hold mutex together, or all of them if there are fewer, for every k |
| `IpcRuns.ExclusionFailsIff` | src/server/cache_server.cpp:354-355 | Two clients can be inside together after k turns if and only if k >= 1 and there are at least two clients |
| `Ipc.DispatchCount` | src/server/cache_server.cpp:341-352 | In every interleaving, once nobody sends and nothing is pending, dispatches plus flags raised over a raised flag make up the number of messages sent; a count, which says nothing of contents |
| `Ipc.NeverStranded` | src/server/cache_server.cpp:335-352 | In every interleaving without stop, when nobody sends and the server is blocked no message is left pending |
| `IpcRuns.Finish` | src/client/client_test.cpp:67-88 | From any state that is not stopped the system can come to rest |
| `Discipline.DeliveredIff` | src/client/client_test.cpp:67-88 | The exact condition: a run without stop that comes to rest, its messages bearing different ids, has dispatched exactly what was sent, in order and content, if and only if each id was taken only when everything sent before had been dispatched and each flag raised only when it was down |
| `Discipline.DeliveredExactly` | src/client/client_test.cpp:67-88 | One half at every moment of every such run, whatever the ids: dispatched is what was sent, but for the message in transit |
| `Discipline.CountIff` | src/client/client_test.cpp:81 | As to numbers, in any interleaving: as many messages are dispatched as were sent if and only if no flag was raised over a raised one |
| `Discipline.DisciplinedDelivers` | src/client/client_test.cpp:55-91 | In particular if sends begin only while nobody sends and the server waits with data_ready = 0 |
| `Races.EqualIdsHide` | src/server/common.h:142-146 | Why the ids must differ: two processes that count alike have a run that violates the condition and delivers exactly |
| `Completion.Complete` | src/server/cache_server.cpp:330-356 | The condition never leads into a dead end: from every state it admits, what is in progress can be completed under it until the system is at rest |
| `Races.DispatchedTwice` | src/client/client_test.cpp:67-82 | Counting is not enough: a run without any flag over a flag and with as many dispatches as messages in which one message is dispatched twice and another never |
| `Races.MessageLost` | src/client/client_test.cpp:81-88 | Two sends before the server wakes end with one dispatch |
| `Responses.OwnAnswers` | src/client/client_test.cpp:93-117 | Over every run in which a client begins a message only when its last answer is taken, and one that will be answered only when all answers are: each wait returns the answer to the caller's own message, none is refused, and no answer is lost or taken twice |
| `CallGuard.MayCallIff` | src/client/client_test.cpp:93-117 | The exact condition on beginning a message, at the end of any such run: it may be begun if and only if every continuation without further messages, delivering in turn and waiting only for own answers, gives each answer to its caller |
| `CallGuard.NeverMadeUp` | src/server/cache_server.cpp:299-317 | Once an answer has been written over unread, no continuation whatever gives each answer to its caller |
| `CrossedAnswers.OneCall` | src/client/client_test.cpp:55-117 | Against the routes of the server: a fetch, the server's turn and the wait follow that condition and bring the client its answer |
| `CrossedAnswers.AnothersAnswer` | src/server/common.h:142-146 | Ids are counted per process: two clients fetch under different hashes, both messages are dispatched exactly and answered, and one client takes the answer to the other's fetch for its own |
| `Session.FetchedAsStored` | src/server/cache_server.cpp:330-356 | Over every run of the protocol in turn with safe puts, a final fetch leaves a response of exactly the bytes last stored under that hash |
| `ServerAnswers.DispatchPosts` | src/server/cache_server.cpp:150-317 | A dispatch posts one response, to the id of its message, exactly for the fetching routes with a long enough payload and the bytecode store with a complete header, whatever is in the cache |
| `ServerAnswers.FetchIsAnsweredIff` | src/server/router.h:19-26 | A fetch is answered if and only if its payload has 256 bytes or more |
| `ServerAnswers.StoreIsAnsweredIff` | src/server/cache_server.cpp:150-416 | A store is answered if and only if it is for bytecode and has 260 bytes or more |
| `Conversation.ThreeStatements` | src/client/client_test.cpp:99-114 | The three statements of a wait in the whole system, uninterrupted, are wait_for_response |
| `Conversation.OwnReplies` | src/client/client_test.cpp:93-117 | Over every such run of clients, protocol, server and responses together: each response copied is the one the server computed for that client's own message after serving those before it |
| `Conversation.StoredIsReceived` | src/server/cache_server.cpp:330-486 | From end to end: when bytes are stored, spared by safe messages and fetched last, the client that fetches receives exactly these bytes |

## Left out

- Opening the file, `mmap`, `msync`, `ftruncate`, descriptors and crashes: the mapped file is an array together with its header and slot table as values.
- A file that bears magic number and version but violates the invariants, which the source takes over unchecked: what the operations then do is not modelled.
- The process-local `std::mutex`: every public cache operation is atomic; `GetFreeSpace`, which locks it twice, and the plain getters are not modelled.
- The field `function_name` of a slot, which nothing reads.
- Keys and hashes are byte strings; a hash field without any zero byte is read to its end, where the source would read on past the field.
- `std::exception` in the handlers: nothing in the modelled code throws; printing is left out.
- The bytes of a response other than success flag, size and data (padding, error texts, and the size field of a fetched blob, which is the length of its data); responses are kept as values with their exact sizes.
- The user handlers, which only print; their request sizes have no effect on cache or responses.
- `GraphSerializer`: the repository declares it without bodies.
- That SHA-256 keeps the route names apart is a hypothesis (`ServerSpec.CacheRoutesDistinct`, `IrRouteDistinct`, `UserRoutesDistinct`) of the results on routing.
- Memory ordering and the blocking of real semaphores: steps are sequentially consistent and semaphores are counters; copying a field, a payload or a response is one step, and so is a dispatch, from reading the message to posting the response.
- Buffer size zero or negative in the buffered hash path, where the source loops or throws.
- ServerClasses.IPCClient.SendMessage: describes the send run without interference; every interleaving of its statements is in `Ipc`.
- ServerClasses.IPCServer.RunOnce: describes a turn run without interference; every interleaving of its statements is in `Ipc`.
