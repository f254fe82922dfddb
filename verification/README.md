# libvisual, modelled and proved

This project models the algorithmic layer of libvisual in Dafny and proves what that layer is for. Values
of the C code that change in place are fields and arrays here, and every such method is tied by its
`ensures` to a specification function; the laws are lemmas about those functions, over every input and
every run. `dafny verify dfyconfig.toml` checks all of it.

| files | component |
|---|---|
| `Complex`, `BitReversal`, `PowerOfTwo`, `Dft`, `DftInverse`, `Fourier`, `FourierEngine` | the Fourier engine: tables, the quadratic transform, the in-place radix-2 transform, and the way back from bins to samples |
| `Random` | the linear congruential generator and integer ranges drawn from it |
| `ListWalk`, `List`, `HashMap`, `IndexedList`, `HashList`, `Cache`, `CacheLaws` | the container stack, and what the cache answers over whole runs |
| `Rle`, `RleLaws`, `RleImage` | the run-length decoder for bitmaps, the format byte by byte, the instruction language it interprets, and an encoder |
| `BeatMachine`, `BeatLaws`, `TempoLaws`, `Beat`, `BeatWitness` | the beat refiner: the state machine with its laws over runs, those of one frame and of its steps, the object that runs it in place, and a run that locks |
| `Event` | the event queue |
| `Color`, `PluginType` | HSV conversion; plugin type strings |
| `Arithmetic` | what several components share |

## What the proofs found

- The butterflies, the twiddle recurrence, the bit reversal and the quadratic loop agree exactly: in exact
  arithmetic both transforms are the defining sum, so `brute_force` cannot be seen in the output.
- `int_range(min, max)` returns `max + 1` for the left-over draws of every range, at least once per period,
  and for wide ranges values beyond that; `IntRangeStaysInRange` says for which draws the header's promise holds.
- The generic destroy loop of a list advances twice a round and empties a proper list exactly when one more
  than its length is a power of two. The hash list's own loop visits every entry.
- `visual_list_chain_at_begin` leaves the old head's `prev` NULL. The walk from the head and the count stay
  right however often entries are chained or inserted, but an entry without a back link that is taken out
  goes together with everything in front of it, which is still counted (`Unchain`).
- The cache's request reset moves entries to the head that way. Two moves on a proper list lose an entry
  exactly when the second one moves the entry that the first one put second (`MoveTwice`). So with
  `reqreset`, asking for one key, then another, then the first one again always loses entries
  (`AskingAgainLoses`). Both caches the library creates set `reqreset` (`lv_fourier.c:285-286`); that they
  lose nothing is proved for the setting FALSE only (`NoResetNoLoss`), and `StepLosesIff` says for both
  settings when the next operation does. As long as nothing is evicted or removed, every get still answers
  with the value last put, whatever the walk has lost: the index keeps the entries (`AnswerAll`).
- The cache evicts what was put last, not what was used least recently (`FirstKeysStay`).
- The bitmap decoder refuses a run below the last row, but not an absolute block: one that starts with the
  cursor before the buffer is written there. `Wild` marks that outcome, and `WildIff` says for which streams
  it arises.
- Adopting a computed tempo by confidence has no effect on the beat refiner's tempo (`AdoptionLeavesNoTrace`):
  the next statement overwrites it.
- Ticks at equal intervals give that interval as the average, but the second layer counts only six of the
  seven intervals: when it starts, the last one is still in hand from the loop before (`SteadyAverage`).
- A gray that is not black comes back from HSV with its green and blue one lower.
- `get_delim_node` searches behind the first character, so a leading delimiter stays in the first field.

## Model

| member | source | states |
|---|---|---|
| BitReversal.ReversedIncrement | libvisual/libvisual/lv_fourier.c:121-128 | the reversed-carry counter at index i is the bit reversal of i, and moves to that of i + 1; the loop ends |
| BitReversal.TableBitrevInit | libvisual/libvisual/lv_fourier.c:104-130 | the swap loop ends with the k-bit reversal of every index, and the table is its own inverse |
| BitReversal.RevInvolution | libvisual/libvisual/lv_fourier.c:104-130 | reversing twice gives the index back |
| BitReversal.RevInjective | libvisual/libvisual/lv_fourier.c:104-130 | the table is a permutation: no two indices share a reversal |
| PowerOfTwoTest.TestIsExact | libvisual/libvisual/lv_math.c:38-41 | the bit test holds for exactly the powers of two |
| PowerOfTwoTest.ExponentOf | libvisual/libvisual/lv_fourier.c:338 | a size that passes the test has an exponent, so the fast transform's tables exist for it |
| DftSpec.EvenOddSplit | libvisual/libvisual/lv_fourier.c:403-432 | a sum of twice the size is the even half plus the turned odd half, for every bin |
| DftSpec.RootHalfTurn | libvisual/libvisual/lv_fourier.c:148-159 | a table entry raised to half its order is -1, and to its order is 1 |
| DftSpec.DftPeriodic | libvisual/libvisual/lv_fourier.c:403-432 | bins that differ by the order of the root are equal |
| DftSpec.Butterfly | libvisual/libvisual/lv_fourier.c:416-423 | sum and difference of the two halves are bins m and m + half of the whole |
| DftSpec.ConjugateSymmetry | libvisual/libvisual/lv_fourier.c:437-450 | for real input bin N - k is the conjugate of bin k and has its modulus |
| DftInverse.TowerIsPrimitive | libvisual/libvisual/lv_fourier.c:132-160 | no smaller power of a table entry than its order is 1, so the table entries are primitive roots |
| DftInverse.Orthogonal | libvisual/libvisual/lv_fourier.c:349-435 | the powers of one root turned by another add up to the size or to nothing, by whether the two are the same |
| DftInverse.TransformInverts | libvisual/libvisual/lv_fourier.c:349-435 | the bins turned back and added up are each sample, times their number: for every size and every input the transform loses nothing, not even a sign |
| DftInverse.SpectrumTellsInputs | libvisual/libvisual/lv_fourier.c:349-435 | two inputs with the same bins are the same input |
| DftInverse.BinZeroIsTheSum | libvisual/libvisual/lv_fourier.c:357-374 | bin 0 is the plain sum of the samples |
| Fourier.StageStep | libvisual/libvisual/lv_fourier.c:412-424 | the two outputs of a butterfly are what the next stage owes its two positions |
| Fourier.ButterflyAt | libvisual/libvisual/lv_fourier.c:414-423 | the in-place statements leave sum and difference at the two positions and every other one alone |
| Fourier.ButterflyColumn | libvisual/libvisual/lv_fourier.c:413-424 | one column of butterflies advances exactly its positions by one stage |
| Fourier.NextPower | libvisual/libvisual/lv_fourier.c:426-427 | the twiddle variables go from one power of the table entry to the next |
| Fourier.FftStage | libvisual/libvisual/lv_fourier.c:403-432 | one pass brings every position from stage t to stage t + 1 |
| Fourier.PerformFftRadix2Dit | libvisual/libvisual/lv_fourier.c:381-435 | for every power of two and every input, each position ends as the defining sum over the zero-padded input |
| Fourier.BruteForceBin | libvisual/libvisual/lv_fourier.c:357-374 | the inner loop, with powers by repeated multiplication, computes one bin |
| Fourier.PerformDftBruteForce | libvisual/libvisual/lv_fourier.c:349-379 | bins 0 to N/2 end as the defining sum, for any size |
| FourierEngine.FftTableCossinInit | libvisual/libvisual/lv_fourier.c:132-160 | the table starts with -1, every entry squares to the one before, and the last one is the root of order N |
| FourierEngine.DftTableCossinInit | libvisual/libvisual/lv_fourier.c:162-177 | entry i is the i-th power of the root of order N |
| FourierEngine.VisDft.Init | libvisual/libvisual/lv_fourier.c:326-347 | the spectrum has the size of the input, none at all included, and brute force is chosen for exactly the sizes that are no power of two |
| FourierEngine.VisDft.Transform | libvisual/libvisual/lv_fourier.c:437-446 | whichever transform runs, bins 0 to N/2 are the same defining sums |
| FourierEngine.BothTransforms | libvisual/libvisual/lv_fourier.c:349-435 | at every power of two the fast and the quadratic transform leave equal bins up to the middle |
| FourierEngine.VisDft.Perform | libvisual/libvisual/lv_fourier.c:437-453 | each output is not negative and, scaled back by N, has the squared modulus of its bin as its square, for bins 0 to N/2 - 1; the rest of the output array is untouched |
| FourierEngine.DroppedBinsRepeat | libvisual/libvisual/lv_fourier.c:437-453 | the bins that are not output are conjugates of bins that are |
| FourierEngine.SamplesFromBins | libvisual/libvisual/lv_fourier.c:437-446 | so the bins of either transform, at any size, give back every sample |
| Random.GeometricDivisibility | libvisual/libvisual/lv_random.c:89-94 | 1 + a + ... + a^(i-1) is divisible by the same powers of two as i, for a one more than a multiple of four |
| Random.ReturnsExactlyAtPeriod | libvisual/libvisual/lv_random.c:89-94 | for every modulus 2^k the state returns after i draws exactly when 2^k divides i |
| Random.DrawsDistinct | libvisual/libvisual/lv_random.c:89-94 | within one period no state comes twice, for every modulus 2^k |
| Random.PeriodCounts | libvisual/libvisual/lv_random.c:89-94 | over a period a property holds of as many draws as there are values with it |
| Random.GeneratorHasFullPeriod | libvisual/libvisual/lv_random.c:30-94 | with the shipped constants any 2^32 draws in a row are distinct, and the seed returns after exactly 2^32 |
| Random.RandomContext.SetSeed | libvisual/libvisual/lv_random.c:65-73 | seed and state both become the given seed |
| Random.RandomContext.Int | libvisual/libvisual/lv_random.c:89-94 | the new state is the draw that is returned |
| Random.RandomContext.IntRange | libvisual/libvisual/lv_random.c:96-112 | one draw is consumed and divided down into the range, with unsigned arithmetic |
| Random.RandomContext.Ints | libvisual/libvisual/lv_random.c:89-94 | any number of calls return consecutive draws |
| Random.CallsCounted | libvisual/libvisual/lv_random.c:96-112 | over a period each result is returned once for every word that divides down to it |
| Random.IntRangeOverAPeriod | libvisual/libvisual/lv_random.c:96-112 | every value from min to max is returned MAX/n times, and max + 1 at least once: min(d, MAX mod n + 1) times |
| Random.NothingFurther | libvisual/libvisual/lv_random.c:96-112 | nothing beyond max + 1 is returned exactly when the left-over words fit in one step, as they do for up to 65535 values |
| Random.IntRangeStaysInRange | libvisual/libvisual/lv_random.h:120-132 | for every int range a call, read as an int, keeps the promise of the header exactly when its draw is below n * (MAX/n) |
| ListWalk.OnePass | libvisual/libvisual/lv_list.c:66-78 | on a list without gaps one pass of the walk-and-delete loop drops every second entry, and whether it begins again depends on parity |
| ListWalk.WalkLeaves | libvisual/libvisual/lv_list.c:58-81 | on such a list the loop loses nothing and leaves r(n) entries, r(2m) = m and r(2m + 1) = r(m) |
| ListWalk.WalkEmptiesIff | libvisual/libvisual/lv_list.c:58-81 | it ends empty exactly when its length plus one is a power of two |
| ListWalk.WalkConserves | libvisual/libvisual/lv_list.c:58-81 | on any list, gaps or not, what was destroyed, what is left and what was lost on the way are together the list |
| ListWalk.ReachesHeadIff | libvisual/libvisual/lv_list.c:221-235 | the walk from the tail comes to the head exactly when no back link is missing |
| LinkedList.VisList.Chain | libvisual/libvisual/lv_list.c:322-355 | the entry goes last and is linked back, on every list; a proper list stays proper |
| LinkedList.VisList.ChainAtBegin | libvisual/libvisual/lv_list.c:294-320 | the entry goes first on every list, walk and count stay right, and the result is proper exactly when the list was empty |
| LinkedList.VisList.Unchain | libvisual/libvisual/lv_list.c:357-383 | on every list: the head, or an entry with a back link, goes alone; any other entry takes everything in front of it off the walk; count falls by one |
| LinkedList.VisList.Insert | libvisual/libvisual/lv_list.c:385-433 | on every list: the new entry goes behind the cursor, or to the head for a NULL cursor, becomes the cursor, and the one behind is linked back to it |
| LinkedList.VisList.Delete | libvisual/libvisual/lv_list.c:435-457 | the entry is unchained and the cursor moves to the one behind it; a NULL cursor is an error without effect |
| LinkedList.VisList.Next | libvisual/libvisual/lv_list.c:205-219 | from position i the cursor goes to position i + 1, from NULL to the first; with its data, or nothing behind the last |
| LinkedList.VisList.Prev | libvisual/libvisual/lv_list.c:221-235 | from position i the cursor goes to position i - 1, from NULL to the last; nothing where the back link is missing |
| LinkedList.VisList.WalkForward | libvisual/libvisual/lv_list.c:205-219 | a traversal from the head sees every entry on the walk once, in order, on every list |
| LinkedList.VisList.WalkBackward | libvisual/libvisual/lv_list.c:221-235 | a traversal from the tail sees the reverse from the last missing back link on: all of it exactly when none is missing |
| LinkedList.VisList.MoveToHead | libvisual/libvisual/lv_cache.c:74-89 | a request reset keeps every entry on the walk exactly when the entry is the head or has a back link; otherwise those in front are lost |
| LinkedList.VisList.MoveAgain | libvisual/libvisual/lv_cache.c:74-89 | after one move, the next keeps every counted entry on the walk exactly when it does not move the second entry |
| LinkedList.VisList.MoveTwice | libvisual/libvisual/lv_cache.c:74-89 | two moves on a proper list lose an entry exactly when the second moves what was the head, or what was behind a head moved first |
| LinkedList.VisList.MoveAnyway | libvisual/libvisual/lv_cache.c:74-89 | whatever entries the walk has lost, a move keeps the count and every pointer among the entries, with neither end missing |
| LinkedList.VisList.DestroyAll | libvisual/libvisual/lv_list.c:58-81 | the loop on the linked entries of any list destroys and leaves what the walk specification says |
| HashTable.FindFirst | libvisual/libvisual/lv_hashmap.c:340-358 | the walk along a chain stops at the first entry with the key, or finds there is none |
| HashTable.HashMap.CreateTable | libvisual/libvisual/lv_hashmap.c:267-284 | every bucket ends as an empty chain |
| HashTable.HashMap.Put | libvisual/libvisual/lv_hashmap.c:324-377 | an integer key holds the new value alone, a string key holds it behind its others; other keys are untouched and size follows |
| HashTable.HashMap.Get | libvisual/libvisual/lv_hashmap.c:445-477 | the oldest value of the key, or nothing |
| HashTable.HashMap.Remove | libvisual/libvisual/lv_hashmap.c:389-433 | the oldest value goes, to the destroyer when asked; found and size tell whether there was one |
| HashTable.StringKeysAreQueues | libvisual/libvisual/lv_hashmap.c:324-433 | over every run the values removed from a string key and then those held are the values put, in order |
| HashTable.IntegerKeysHoldTheLast | libvisual/libvisual/lv_hashmap.c:324-433 | over every run an integer key holds the value last put, unless removed since |
| HashTable.RunMap | libvisual/libvisual/lv_hashmap.c:324-433 | any run of puts and removes on a new map is the run of the abstract store, with what each remove answers and destroys |
| HashTable.AnswersHandOver | libvisual/libvisual/lv_hashmap.c:389-433 | over every run the removes of a key hand its removed values to the destroyer, in order, when asked to |
| IndexedLists.IndexedList.Find | libvisual/libvisual/lv_hashlist.c:210-226 | a key leads to the one list node that carries it |
| IndexedLists.IndexedList.Append | libvisual/libvisual/lv_cache.c:208-226 | list and index stay in bijection when a new key goes last |
| IndexedLists.IndexedList.Drop | libvisual/libvisual/lv_hashlist.c:188-208 | list and index stay in bijection when a node that goes alone is taken out of both |
| IndexedLists.IndexedList.Move | libvisual/libvisual/lv_cache.c:74-89 | they do when such a node is moved to the head, and one more node in front is then without a back link |
| IndexedLists.IndexedList.MoveHeld | libvisual/libvisual/lv_cache.c:74-89 | a move of any other node, on the walk or lost, leaves every key with its node and data |
| IndexedLists.IndexedList.TakenForHead | libvisual/libvisual/lv_list.c:357-383 | the pointers show which nodes would not go alone: those behind the first and among the front ones |
| Hashlist.LookupPut | libvisual/libvisual/lv_hashlist.c:141-171 | after a put the key looks up to the new value and every other key to what it had |
| Hashlist.LookupRemove | libvisual/libvisual/lv_hashlist.c:173-208 | after a remove the key is gone and every other key looks up to what it had |
| Hashlist.KeysPut | libvisual/libvisual/lv_hashlist.c:150-171 | a key put again keeps its place among the keys, and a new one goes last |
| Hashlist.KeysRemove | libvisual/libvisual/lv_hashlist.c:173-208 | a remove takes its key out of the order and leaves the others as they stand |
| Hashlist.VisHashlist.Put | libvisual/libvisual/lv_hashlist.c:141-171 | an existing key keeps its place and gets the value, a new one goes last |
| Hashlist.VisHashlist.Get | libvisual/libvisual/lv_hashlist.c:210-226 | the value of the key, or nothing |
| Hashlist.VisHashlist.Remove | libvisual/libvisual/lv_hashlist.c:173-208 | exactly that key leaves list and index, and its value goes to the destroyer |
| Hashlist.VisHashlist.Destroy | libvisual/libvisual/lv_hashlist.c:32-50 | every entry goes to the destroyer once, in order, and both structures end empty |
| Cache.RunSound | libvisual/libvisual/lv_cache.c:177-265 | over every run, with either setting, up to where it would lose entries, no key is held twice and the limit is never exceeded |
| Cache.RunConserves | libvisual/libvisual/lv_cache.c:177-265 | over every run that loses no entry each value put is held, was overwritten, was refused, or went to the destroyer, exactly once |
| Cache.StepLosesIff | libvisual/libvisual/lv_cache.c:74-265 | with either setting the next operation loses entries exactly when the entry it evicts, removes or moves is behind the first and among the front ones |
| Cache.NoResetNoLoss | libvisual/libvisual/lv_cache.c:74-265 | without reqreset no run loses an entry |
| Cache.AskingAgainLoses | libvisual/libvisual/lv_cache.c:247-265 | with reqreset, asking for a key, another, and the first again loses entries, from every state |
| Cache.FewChanges | libvisual/libvisual/lv_cache.c:247-265 | with reqreset, a run of gets that loses nothing changes the head fewer times than there are entries |
| Cache.ContentsAreLastPut | libvisual/libvisual/lv_cache.c:177-265 | after gets and puts the contents of a key are the value last put, or what was held before |
| Cache.FirstKeysStay | libvisual/libvisual/lv_cache.c:177-230 | with either setting, after puts of distinct keys a full cache holds the first L - 1 of them and the last |
| CacheLaws.RemoveTakesOut | libvisual/libvisual/lv_cache.c:232-245 | after a remove the key leads to nothing, every other key leads to what it led to, the order of the others is kept, and exactly the value held went to the destroyer |
| CacheLaws.GetKeeps | libvisual/libvisual/lv_cache.c:247-265 | a get changes no lookup; with reqreset its key becomes the first one and the others keep their order |
| CacheLaws.PutStores | libvisual/libvisual/lv_cache.c:177-230 | after a put the key leads to the data; the last key of a full cache, and no other, is gone; what was held is destroyed if evicted and overwritten if not; the order of the keys is stated for either setting |
| CacheLaws.RunKeepsLastPut | libvisual/libvisual/lv_cache.c:177-265 | over every run that loses no entry a key leads to the value last put and not removed since, unless that was evicted |
| CacheLaws.AnswerRun | libvisual/libvisual/lv_cache.c:177-265 | so each get of such a run on a new cache answers with that value, and with nothing after a remove until the next put |
| Cache.VisCache.RemoveListEntry | libvisual/libvisual/lv_cache.c:56-71 | the entry leaves index and list and its value is destroyed, unless entries in front of it would be lost, which is reported |
| Cache.VisCache.MakeRoom | libvisual/libvisual/lv_cache.c:190-198 | tail entries are destroyed until there is room for one more, up to where one would be lost |
| Cache.VisCache.HandleRequestReset | libvisual/libvisual/lv_cache.c:74-89 | with reqreset the entry becomes the first one, up to where that would lose entries; without it nothing changes |
| Cache.VisCache.Put | libvisual/libvisual/lv_cache.c:177-230 | nothing in a cache without room; else room is made before the key is looked up, and the value overwrites and may move to the head, or goes last |
| Cache.VisCache.Remove | libvisual/libvisual/lv_cache.c:232-245 | exactly that key goes, its value to the destroyer, up to where entries would be lost |
| Cache.VisCache.Get | libvisual/libvisual/lv_cache.c:247-265 | the value held for the key, or nothing; the entry moves to the head with reqreset and stays without |
| Cache.VisCache.Perform | libvisual/libvisual/lv_cache.c:74-265 | any run on the linked structures, with either setting, is the run of the specification up to where it would lose entries, and each get answers with what its key leads to |
| Cache.VisCache.GetAnyway | libvisual/libvisual/lv_cache.c:247-265 | from any state that gets and puts reach, losses included, a get answers with what is held for the key |
| Cache.VisCache.PutAnyway | libvisual/libvisual/lv_cache.c:177-230 | and a put that evicts nothing changes what is held for its key and no other |
| Cache.VisCache.AnswerAll | libvisual/libvisual/lv_cache.c:74-265 | over every run of gets and puts that evicts nothing, with either setting and past every loss, each get answers with the value last put |
| Rle.EncodedRun | libvisual/libvisual/lv_bmp.c:156-171 | a run paints its colour, in 4-bit mode its nibbles in turn, as far as the buffer goes and nowhere else |
| Rle.LiteralRun | libvisual/libvisual/lv_bmp.c:208-224 | an absolute block paints the pixels of its bytes and consumes exactly the bytes it painted from |
| Rle.EscapeSequence | libvisual/libvisual/lv_bmp.c:174-230 | line end, end, delta and absolute block act on cursor, row, buffer and input as the format says |
| Rle.LoadRle | libvisual/libvisual/lv_bmp.c:137-239 | for every byte stream the loop is the interpreter, it ends, and up to the verdict OutOfBuffer no store is outside the buffer |
| Rle.StepSane | libvisual/libvisual/lv_bmp.c:148-231 | while the row is in the image so is the cursor; a step would write before the buffer exactly for an absolute block with the cursor before it |
| Rle.WildIff | libvisual/libvisual/lv_bmp.c:137-239 | for every stream, it is written before the buffer exactly when an absolute block that the decoder comes to starts there |
| Rle.NeverWild | libvisual/libvisual/lv_bmp.c:208-224 | so it is not when all its absolute blocks start in rows of the image |
| Rle.DeltaBringsBack | libvisual/libvisual/lv_bmp.c:194-206 | which is not needed: a delta can bring the cursor back into the buffer without the row |
| Rle.LiteralAfterLastRow | libvisual/libvisual/lv_bmp.c:180-188 | the line end after the last row followed by an absolute block does get there |
| RleLaws.EncodedEvenly | libvisual/libvisual/lv_bmp.c:208-227 | in both modes every instruction has an even number of bytes, with at most one byte of padding |
| RleLaws.StepsAreEven | libvisual/libvisual/lv_bmp.c:148-231 | and the decoder consumes an even number of bytes a step, up to the end of the input |
| RleLaws.RunBytes | libvisual/libvisual/lv_bmp.c:152-172 | count and colour paint as many pixels as fit, in 4-bit mode the nibbles in turn, high one first; two bytes are consumed and nothing else changes |
| RleLaws.LiteralBytes | libvisual/libvisual/lv_bmp.c:208-229 | an absolute block paints its pixels, in 4-bit mode two to a byte, high nibble first; it consumes the bytes painted from and one more where their number is odd |
| RleLaws.PixelsPastTheEnd | libvisual/libvisual/lv_bmp.c:208-229 | pixel bytes missing at the end of the input read as 255 |
| RleLaws.MovingBytes | libvisual/libvisual/lv_bmp.c:175-206 | line end, end of bitmap and delta move cursor and row in coordinates of the image, or end the decode |
| RleLaws.BadBytes | libvisual/libvisual/lv_bmp.c:149-154 | the end of the input inside or before an instruction, and a run below the last row, are errors |
| RleImage.StepDecodes | libvisual/libvisual/lv_bmp.c:148-231 | the bytes of one instruction make the decoder do what the instruction means |
| RleImage.ProgramDecodes | libvisual/libvisual/lv_bmp.c:137-239 | every encoded program that fits the image decodes to what the program paints |
| RleImage.ImagePaints | libvisual/libvisual/lv_bmp.c:144-231 | rows from the bottom up, in any mix of runs and blocks, end in their places |
| RleImage.ImageRoundTrip | libvisual/libvisual/lv_bmp.c:137-239 | any row-by-row encoding of any image decodes back to it, in both modes, and the bytes between width and pitch are untouched |
| RleImage.EncodedRowPixels | libvisual/libvisual/lv_bmp.c:152-172 | in both modes every row of pixels has an encoding in runs, each as long as a run can be |
| RleImage.EncodedImageDecodes | libvisual/libvisual/lv_bmp.c:137-239 | so every image has a stream that decodes to it |
| EventQueue.FirstInFirstOut | libvisual/libvisual/lv_event.c:149-200 | over every run the events polled and then those queued are the events accepted, in order |
| EventQueue.EventsDescribe | libvisual/libvisual/lv_event.c:181-273 | over every run each event taken onto the queue says what its operation was given: press or release by the state, button and position, the event handed in, and for a motion the last button state and the distance from the last position; and exactly the posting operations that found at most 256 events are described |
| EventQueue.MouseRemembered | libvisual/libvisual/lv_event.c:228-273 | over every run the queue remembers the last position and the last button state, dropped events included |
| EventQueue.QueueBounded | libvisual/libvisual/lv_event.c:181-200 | the queue never holds more than 257 events |
| EventQueue.ResizeComesFirst | libvisual/libvisual/lv_event.c:149-179 | a poll answers with the latest resize since the last poll, if any, however full the queue; else with the oldest event |
| EventQueue.MovementsAddUp | libvisual/libvisual/lv_event.c:228-249 | the relative movements of all generated motion events sum to the mouse position |
| EventQueue.AcceptedMovementsAddUpIff | libvisual/libvisual/lv_event.c:228-249 | those of the events that were queued do so exactly when the dropped ones cancel out |
| EventQueue.MovementLost | libvisual/libvisual/lv_event.c:181-249 | and a run where they do not: a movement offered behind 257 events |
| EventQueue.VisEventQueue.Poll | libvisual/libvisual/lv_event.c:149-179 | the resize first, else the oldest event, else nothing; and only that is taken |
| EventQueue.VisEventQueue.Add | libvisual/libvisual/lv_event.c:181-200 | the event goes last unless there are more than 256 |
| EventQueue.VisEventQueue.AddMouseMotion | libvisual/libvisual/lv_event.c:228-249 | the movement is relative to the last position, which is updated even when the queue is full |
| EventQueue.VisEventQueue.AddMouseButton | libvisual/libvisual/lv_event.c:251-273 | the button event is queued and its state remembered for later motions |
| EventQueue.VisEventQueue.AddResizeEvent | libvisual/libvisual/lv_event.c:275-293 | the resize replaces a pending one and never touches the queue |
| EventQueue.RunQueue | libvisual/libvisual/lv_event.c:149-293 | any run on a new queue is the run of the specification, answers included |
| BeatMachine.HalvedAfterDoubled | libvisual/libvisual/lv_beat.c:569-616 | halving a tempo after doubling it brings the newest ticks back exactly as far as the intervals between them are even |
| BeatMachine.SmoothedBetween | libvisual/libvisual/lv_beat.c:693-710 | the smoothed tempo lies between the smallest and the largest one that counts |
| BeatMachine.SecondAverageNearFirst | libvisual/libvisual/lv_beat.c:757-779 | averaging once more over the intervals within the drift moves the average by less than the drift and one tick |
| BeatMachine.FrameLock | libvisual/libvisual/lv_beat.c:360-487 | a frame ends locked exactly when it was locked or earned the lock, there was no song change and no reset; and then its tempo is unchanged |
| BeatMachine.FrameCount | libvisual/libvisual/lv_beat.c:782-801 | the count towards the lock after a frame is one more for a confident new reading, none for any other new reading, a reset or a song change, and else as before |
| BeatLaws.HeardBeat | libvisual/libvisual/lv_beat.c:389-485 | a beat heard is answered with a beat exactly when the refiner does not steer, or one is due, or no tempo is known, or the beat is accepted more than seven tenths of a period after the last |
| BeatLaws.HeardBeatLocked | libvisual/libvisual/lv_beat.c:433-485 | with a lock that holds, that is: exactly when one is due, or the beat is accepted late in the period of the locked tempo |
| BeatLaws.SilentFrame | libvisual/libvisual/lv_beat.c:389-485 | without a beat heard the answer is a beat exactly when the refiner steers and the period has passed |
| BeatLaws.ClockSet | libvisual/libvisual/lv_beat.c:453-481 | the clock of the prediction is set by the period passing and by a beat accepted near one of its ends, and by nothing else |
| BeatLaws.FrameSlides | libvisual/libvisual/lv_beat.c:377-479 | the slider in moves on every beat heard, the slider out on every beat predicted or accepted late |
| BeatLaws.SettleGuesses | libvisual/libvisual/lv_beat.c:453-481 | a predicted beat goes into the history as a guess from a confidence of 26 on; late and early beats switch the nudging on, predicted ones off |
| BeatLaws.NewestTick | libvisual/libvisual/lv_beat.c:389-487 | in a frame without a beat due the newest tick becomes the beat heard, as a real one, exactly when that is accepted |
| BeatLaws.SongChangeReleases | libvisual/libvisual/lv_beat.c:380-387 | a song change releases the lock and halves the best confidence; with the setting for it all that was learned is forgotten |
| BeatLaws.ResetForgets | libvisual/libvisual/lv_beat.c:319-351 | a reset forgets ticks, tempo, lock and levels, and nothing of configuration, sliders, the last reading and a pending song change |
| BeatLaws.AdoptionByConfidence | libvisual/libvisual/lv_beat.c:405-427 | a free tempo is taken up at no lower confidence than the best, on demand, or on the eighth confidence of 50 |
| TempoLaws.SteadyTickInserted | libvisual/libvisual/lv_beat.c:619-663 | a tick a whole average after the last goes to the front and the others move back |
| TempoLaws.HalfTickMarked | libvisual/libvisual/lv_beat.c:645-652 | a tick half an average after the last is marked and not taken, once there is a history |
| TempoLaws.EarlyTick | libvisual/libvisual/lv_beat.c:630-644 | a tick that comes too soon changes nothing, or takes the newest one's place when the newest interval comes nearer the average by it |
| TempoLaws.DividesIff | libvisual/libvisual/lv_beat.c:645-647 | a fraction of the average is a distance within a fifth of its half, third, up to its seventh |
| TempoLaws.DoublingDoubles | libvisual/libvisual/lv_beat.c:569-591 | doubling makes the tempo twice as high, every interval half as long and the rings empty |
| TempoLaws.HalvingHalves | libvisual/libvisual/lv_beat.c:594-616 | halving makes the tempo half as high and every interval twice as long |
| TempoLaws.TempoCorrected | libvisual/libvisual/lv_beat.c:803-836 | doubled when half of the last eight ticks were fractions, reset above 500, doubled or halved after five times out of range, and else left as it is |
| TempoLaws.NudgeDirection | libvisual/libvisual/lv_beat.c:433-451 | a late beat nudges an unlocked tempo up by at most a hundredth, an early one down by at most two and what is cut off |
| TempoLaws.SmoothedIsTheMean | libvisual/libvisual/lv_beat.c:693-710 | the smoothed tempo is the mean of the positive entries of the ring |
| TempoLaws.RingHoldsLast | libvisual/libvisual/lv_beat.c:682-691 | after up to eight tempos the ring holds each once, in order, and keeps the other places |
| TempoLaws.ReadingSmoothed | libvisual/libvisual/lv_beat.c:782-803 | only a reading that changed goes into the ring, and the tempo is the mean of what counts there |
| TempoLaws.ReadingCountsIntervals | libvisual/libvisual/lv_beat.c:782-785 | the reading is the number of average intervals in a minute |
| TempoLaws.SplitBeatMerges | libvisual/libvisual/lv_beat.c:762-775 | two short intervals that make up one average count as one |
| TempoLaws.AverageOfKept | libvisual/libvisual/lv_beat.c:729-779 | the average learned is the mean of what the second layer keeps, if anything, and else of all intervals |
| TempoLaws.SteadyAverage | libvisual/libvisual/lv_beat.c:729-779 | of ticks at equal intervals that interval is the average, taken from six of them, or from the first layer alone without a drift |
| BeatMachine.MadeUpBeat | libvisual/libvisual/lv_beat.c:389-487 | without a beat heard the answer is a beat exactly when the refiner steers and the known tempo makes one due |
| BeatMachine.AdoptionLeavesNoTrace | libvisual/libvisual/lv_beat.c:400-430 | whether a tempo is adopted by confidence makes no difference to the tempo |
| BeatMachine.LockedTempoHolds | libvisual/libvisual/lv_beat.c:360-487 | over every run a locked tempo stays locked exactly until a frame begins with a song change or something resets, and does not move till then |
| BeatMachine.LockTakesEightFrames | libvisual/libvisual/lv_beat.c:788-801 | a new refiner locks nothing before eight frames with a confidence of 70 |
| BeatWitness.RefinerLocks | libvisual/libvisual/lv_beat.c:360-487 | a new refiner does lock: a run of twenty-five frames |
| BeatMachine.MadeUpBeatsKeepThePeriod | libvisual/libvisual/lv_beat.c:389-463 | two beats made up under one lock are more than a period of its tempo apart |
| Beat.VisBeat.ResetAdapt | libvisual/libvisual/lv_beat.c:319-351 | everything learned, the predicted tempo and the lock are gone; configuration, sliders and the last reading stay |
| Beat.VisBeat.GetBpm | libvisual/libvisual/lv_beat.c:693-710 | the average of the positive entries of the ring, zero without any |
| Beat.VisBeat.RebuildHistory | libvisual/libvisual/lv_beat.c:579-583 | the newest tick stays, and every interval behind it is the changed old one |
| Beat.VisBeat.TcHistStep | libvisual/libvisual/lv_beat.c:619-663 | a tick is thrown away, replaces the newest, is marked as a fraction, or is inserted, by its distance and the average |
| Beat.VisBeat.AverageInterval | libvisual/libvisual/lv_beat.c:730-734 | the sum of the intervals is the span of the history |
| Beat.VisBeat.SecondLayer | libvisual/libvisual/lv_beat.c:762-775 | the sum and number of intervals kept, starting with the last interval still in hand |
| Beat.VisBeat.CalcBpm | libvisual/libvisual/lv_beat.c:713-837 | the whole computation of the tempo, with its readiness tests, is the machine's |
| Beat.VisBeat.Strike | libvisual/libvisual/lv_beat.c:454-485 | which beats set the clock, enter the history as guesses, and how the frame is answered |
| Beat.VisBeat.RefineBeat | libvisual/libvisual/lv_beat.c:360-487 | every field and ring after a frame, and its answer, are the machine's; rings, sliders, signs and the lock stay in order |
| Beat.VisBeat.Run | libvisual/libvisual/lv_beat.c:237-487 | any run of frames, song changes, resets and configurations is the run of the machine |
| Color.WheelInvertsHue | libvisual/libvisual/lv_color.c:79-167 | in all six sectors and on their boundaries the wheel gives the three components back from the hue |
| Color.RoundTripOfColours | libvisual/libvisual/lv_color.c:79-167 | every colour with components not all equal survives the round trip exactly |
| Color.RoundTripOfGrays | libvisual/libvisual/lv_color.c:79-167 | a gray keeps its red and loses a millionth of green and blue |
| Color.HueInvertsWheel | libvisual/libvisual/lv_color.c:79-167 | the other way round hue, saturation and value come back from every colour that is neither gray nor black, and a hue of 360 as 0 |
| Color.GrayBytes | libvisual/libvisual/lv_color.c:110-113 | and that truncates to one below on every byte but zero |
| Color.VisColor.ToHsv | libvisual/libvisual/lv_color.c:116-167 | hue, saturation and value of the components, the hue within the circle |
| Color.VisColor.FromHsv | libvisual/libvisual/lv_color.c:79-114 | the truncated components of the wheel, whenever their conversion to bytes is defined |
| Color.WheelConvertible | libvisual/libvisual/lv_color.c:79-114 | it is for every hue from 0 and every saturation and value in the unit interval |
| Color.BlackOutside | libvisual/libvisual/lv_color.c:91-108 | a hue a sixth or more below the circle, or above it, gives black |
| Color.VisColor.RoundTrip | libvisual/libvisual/lv_color.c:79-167 | the bytes come back exactly when the colour is not gray or is black; another gray loses one of green and blue |
| PluginType.JoinFields | libvisual/libvisual/lv_plugin.c:117-152 | the fields joined by the delimiter are the string |
| PluginType.FieldsShape | libvisual/libvisual/lv_plugin.c:117-152 | there is one field more than delimiters behind the first character, and none holds one except in front |
| PluginType.FieldsArePlainSplit | libvisual/libvisual/lv_plugin.c:117-152 | the fields are the plain split exactly when the string does not start with the delimiter |
| PluginType.GetDelimNode | libvisual/libvisual/lv_plugin.c:117-152 | the field with the index, and NULL for every other index |
| PluginType.GetDepth | libvisual/libvisual/lv_plugin.c:799-819 | the number of fields up to the cap |
| PluginType.MemberOf | libvisual/libvisual/lv_plugin.c:821-872 | true exactly when the domain's fields, without flags and up to the cap, begin the type's fields |
| PluginType.NothingInFlags | libvisual/libvisual/lv_plugin.c:821-872 | no type is a member of a domain that starts with a dot |
| PluginType.ContainsIff | libvisual/libvisual/lv_plugin.c:821-872 | membership read off the strings: the type is the compared part of the domain, or begins with it and a colon |
| PluginType.ComparedPart | libvisual/libvisual/lv_plugin.c:799-872 | that part is the domain up to its first dot, or its first three fields if it has more |
| PluginType.FieldsOfJoin | libvisual/libvisual/lv_plugin.c:117-152 | fields that are joined by the delimiter come apart again |
| PluginType.ContainsItselfIff | libvisual/libvisual/lv_plugin.c:821-872 | a type is a member of itself exactly when none of its compared fields has a dot |
| PluginType.ContainsTransitive | libvisual/libvisual/lv_plugin.c:821-872 | membership is transitive, with flags or without |

## Left out

- FourierEngine.VisDft.Perform: `norm` and `circle` are parameters that stand for the root of a sum of squares and for cosine and sine; `IsModulus` and `UnitCircle` list the laws of theirs that are used. That no smaller power of the root of order N is 1 is one of these; for powers of two `TowerIsPrimitive` proves it from the others. Float rounding is not modelled, all arithmetic is exact.
- FourierEngine.VisDft.Transform: a transform of no samples is excluded, since C writes bin 0 behind the empty arrays. Tables are made afresh; the cache that shares them by size, and `visual_dft_new` handing its two sizes on in the wrong order, are not modelled.
- Logarithmic scaling and its range table: floating point only.
- Random.RandomContext.IntRange: `max - min + 1` is taken as the unsigned word it ends as, so the undefined signed overflow is not modelled; a range of zero width divides by zero in C and is excluded. The floating point variants are left out.
- LinkedList.VisList.DestroyAll: entries hold data that is not NULL; a NULL ends the C loop early. Reference counts and NULL-argument guards are left out throughout.
- HashTable.HashMap.Put: the chains are sequences in the table's array, not linked lists, so the aliasing of chain entries is not captured; the hash is any function into the table, so the signed remainder in `get_hash` that can leave it is not modelled. Rehashing a filled table, and clearing, are left out: they skip entries or reuse freed ones.
- Hashlist.VisHashlist.Put: keys are values; the C index keeps a pointer to the caller's key.
- Cache.VisCache.Perform: a run stops where the C code goes on to unchain an entry that it takes for the head of the list although it is not. LinkedList.VisList.Unchain says what that does to the list. Beyond it, GetAnyway, PutAnyway and AnswerAll model gets and puts; evictions and removes are not modelled there, since they free entries that lost ones still point to. Entries do not age. `visual_cache_clear` is left out like the hash list's.
- Cache.RunSound: says nothing of a state behind a loss.
- Cache.VisCache.RemoveListEntry: reports such an entry and leaves it; the C code takes it out and loses those in front.
- Cache.VisCache.MakeRoom: stops at such a tail entry.
- Cache.VisCache.HandleRequestReset: reports such an entry and leaves it; IndexedLists.IndexedList.MoveHeld carries the move out.
- Cache.VisCache.Put: stops there; PutAnyway goes on, as far as nothing is evicted.
- Cache.VisCache.Remove: stops there.
- Cache.VisCache.Get: stops there, with its answer; GetAnyway goes on.
- Rle.LoadRle: the verdict `OutOfBuffer` stands for the C code's store before the buffer, which has no defined outcome. Header reading, uncompressed bitmaps and the palette are left out.
- Event references: a poll by reference answers with the event itself; keyboard and generic events differ only in payload and go through `Add`.
- Beat.VisBeat.CalcBpm: the confidence figures and the typical drift, which come out of float arithmetic with a square root, are arbitrary inputs of each frame. Float products with constants are exact reals, and time is one input per frame.
- Loudness detection (`beat_adv`) and the text of `visual_beat_get_info` are not part of this model.
- Color.VisColor.FromHsv: components whose conversion from float to byte C leaves undefined are excluded, as a caller would have to; so is a hue too large for an int, by `Cut` being unbounded.
- PluginType.MemberOf: the empty domain and the empty type are excluded, since C reads behind the end of their buffers. PluginType.GetDelimNode takes the byte behind the end of an empty string to be zero, as it is in the copy of a domain that starts with a dot.
- Inline assembly, plugin loading, the registry, configuration files, video and morph code: platform glue, or foreign code without visible semantics.
