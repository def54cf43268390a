# Verified models of seven programs

This project models the main algorithms of the repository and proves what they are for.

- **Cache simulator** (`Cache*.dfy`). The set-associative cache with LRU and FIFO replacement, as a
  class and as a state machine over traces. Proved: LRU inclusion, the reuse-distance
  characterisation of hits, the window bound for both policies, and that sets are independent.
- **SM4** (`Anf`, `Words`, `Sm4*`, `Bitslice`, `Simd`, `Cbc*`, `Multibuffer`). The scalar cipher and
  its key schedule are the recurrences of GB/T 32907-2016 (sections 6 and 7), bit by bit; the
  bitsliced and the 8-lane engine equal it in every lane;
  decryption inverts encryption for any round function; CBC (section 6.2 of NIST SP 800-38A) round
  trips, also in place; the threaded decryption and the lockstep encryption of many streams equal
  the sequential one. The S-box is any function on bytes and the key-schedule constants are
  parameters.
- **Decoder-chain search** (`Decode*.dfy`, `DecoderPool.dfy`). The backtracking search over a pool of
  decoders: it ends, delivers a correct chain, accounts for every output, and makes at most
  n (n + 3) / 2 calls; when it finds a chain that exists, and when it loses an output.
- **Module dependencies** (`ModuleDeps.dfy`). When the recursive search raises, and exactly what it
  collects.
- **Matrix multiplication** (`Matmul*.dfy`). Eight loop versions and every interleaving of the
  threaded ones leave the same array, the product, for any addition and multiplication with no laws.
- **Tokenizer** (`Strtok.dfy`) and **circular list** (`RingList.dfy`).

Programs that change state are classes and methods with loops, proved against functions on values;
the theorems are lemmas about those functions. Machine words are sequences of bits, lowest first.
A thread's step is one byte written (CBC) or one load or store of C (matrices), and the scheduler
picks any thread that can go on.

Findings about the code, each with a proof:

- The decoder search is not complete: a decoder that failed on one node stays tried for the nodes
  below it (`DecodeMissed.ChainMissed`), and a decoder that succeeded is not used again
  (`DecodeMissed.NotUsedAgain`). It is complete for decoders that treat alike what they may be
  given (`DecodeComplete.SearchIsComplete`).
- When `CRYPT_DECODE_GetParam` fails after a successful decode, that output is neither on the path
  nor freed (`DecodeLost.OutputLost`); this is the only way to lose one
  (`DecodeLost.LosesExactly`).
- A module whose `.deps` list is present and empty ends a chain without adding it
  (`ModuleDeps.EmptyDepsMissed`), so modules that lead only to such modules are left out of the
  result (`ModuleDeps.CollectsAllExactly`).
- The comment above `strtok_s` (lines 90-93) says the first call returns the first non-NUL
  character. The code skips leading delimiters (`Strtok.LeadingDelimiterSkipped`): the comment is
  right exactly when the first character is no delimiter, and NULL comes also when only delimiters
  are left (`Strtok.TokenExactly`). The model follows the code.

To verify: `dafny verify dfyconfig.toml`.

## Model

| member | source | states |
|---|---|---|
| `CacheSimulation.Configure` | Experiment2/report/code/cache_sim.py:76-98 | the configuration is accepted exactly for positive sizes, a block size that divides the cache size, a known policy and a positive associativity that divides the line count; it carries the given block size, policy and allocation flag, sets x ways x block size is the cache size, an integer associativity is the number of ways, and a fully associative cache has one set; a refusal names the first check that fails |
| `CacheSimulation.CacheSimulator.constructor` | Experiment2/report/code/cache_sim.py:83-103 | a new simulator is the empty cache of the model: every line invalid, clock and counters 0, no line shared between sets |
| `CacheSimulation.CacheSimulator.SelectVictim` | Experiment2/report/code/cache_sim.py:119-125 | the victim is the first invalid line, else the first line with the least insertion time (fifo) or use time (lru) |
| `CacheSimulation.CacheSimulator.AccessBlock` | Experiment2/report/code/cache_sim.py:127-150 | the object's new state and result are those of one step of the model, for hits, misses, writes and both allocation modes |
| `CacheSimulation.CacheSimulator.Access` | Experiment2/report/code/cache_sim.py:152-160 | an access of any size, also zero or negative, probes its blocks in order and returns one result for each |
| `CacheSimulation.CacheSimulator.RunTrace` | Experiment2/report/code/cache_sim.py:162-165 | the counters after a list of accesses are those of the model's run over all probes in order; any operation but "write" is a read |
| `CacheSimulation.NextAccess` | Experiment2/report/code/cache_sim.py:162-165 | one more entry of a list of accesses adds the probes of its byte range, as writes exactly for "write" |
| `CacheModel.DecodeIsBijective` | Experiment2/report/code/cache_sim.py:113-117 | set index and tag determine the block and every pair comes from a block: block = tag * set_count + index, also for negative addresses (floor division) |
| `CacheModel.BlockHoldsAddress` | Experiment2/report/code/cache_sim.py:113-117 | every address lies in the block_size bytes of its own block, also a negative one |
| `CacheModel.ProbesCoverBytes` | Experiment2/report/code/cache_sim.py:152-160 | the probes of an access are exactly the blocks that hold one of its bytes, each once, in order, and each byte of it lies in the block_size bytes from the address of some probe on |
| `CacheModel.HitsAreHitAt` | Experiment2/report/code/cache_sim.py:127-150 | the list of results of a run is, entry by entry, whether that probe hits the state left by the ones before it |
| `CacheModel.StepKeepsInv` | Experiment2/report/code/cache_sim.py:127-150 | kept by every access: no tag twice in a set, distinct use times and insertion times at most the clock, hits + misses = reads + writes = accesses = clock |
| `CacheModel.RunKeepsInv` | Experiment2/report/code/cache_sim.py:162-165 | the same after every trace |
| `CacheTallies.CountersCount` | Experiment2/report/code/cache_sim.py:127-150 | after every trace hits is the number of probes that hit and misses that of the others, stores the number of writes and loads that of the others |
| `CacheTallies.ProbedAgain` | Experiment2/report/code/cache_sim.py:145-150 | the next probe of the same block hits if and only if this one hit, or was a read, or write misses allocate |
| `CacheResident.ProbeReplaces` | Experiment2/report/code/cache_sim.py:127-150 | what an access does to the map from resident tags to times: a hit renews (lru) or keeps (fifo) its time, a miss adds the tag and evicts the oldest one exactly when the set is full |
| `CacheInclusion.LruInclusion` | Experiment2/report/code/cache_sim.py:119-150 | LRU inclusion: same block size, set count and allocation, at least as many ways. After every trace each set's resident tags are a subset with the same use times, every probe that hits the smaller cache hits the larger, and its hit count is no larger |
| `CacheInclusion.InclusionOverRuns` | Experiment2/report/code/cache_sim.py:119-150 | inclusion is kept by all runs from any two included states, not only from empty caches |
| `CacheReuse.ReuseDistance` | Experiment2/report/code/cache_sim.py:127-150 | with LRU and write_allocate, an access hits if and only if its tag was used before in its set and fewer than `ways` other tags of the set were used since |
| `CacheWindow.MissesOnce` | Experiment2/report/code/cache_sim.py:119-150 | LRU and FIFO, from any state, in any window that touches at most `ways` tags of a set: once a tag of it has missed and been allocated, it hits for the rest of the window |
| `CacheIndependence.SetIndependence` | Experiment2/report/code/cache_sim.py:113-150 | an access hits exactly if the corresponding access hits in a one-set simulator that sees only that set's accesses, although the clocks differ |
| `CacheIndependence.HitsAddUp` | Experiment2/report/code/cache_sim.py:113-165 | the hits of a trace are the sum over the sets of the hits of their one-set simulators |
| `Anf.CoefficientIsSubsetXor` | Experiment3/report/code/sm4_multibuffer_bitslice.c:269-276 | the in-place butterfly gives each coefficient as the XOR of the function over the subsets of its mask, for any number of variables |
| `Anf.LayersCommute` | Experiment3/report/code/sm4_multibuffer_bitslice.c:269-276 | the layers of the butterfly may be run in either order of bits |
| `Anf.ButterflyIsInvolution` | Experiment3/report/code/sm4_multibuffer_bitslice.c:269-276 | the transform is its own inverse |
| `Anf.PolynomialIsFunction` | Experiment3/report/code/sm4_multibuffer_bitslice.c:261-283 | the XOR of the coefficients over the subsets of x is f(x), for every Boolean function of n variables and every x |
| `Anf.AnfTerms` | Experiment3/report/code/sm4_multibuffer_bitslice.c:261-283 | the loops in place on the coefficient array leave in the list exactly the masks whose coefficient is one, ascending |
| `Bitslice.LowBitIndex` | Experiment3/report/code/sm4_multibuffer_bitslice.c:293-304 | the index of the lowest set bit |
| `Bitslice.Monomials` | Experiment3/report/code/sm4_multibuffer_bitslice.c:348-352 | built from the lowest bit of each mask, table entry m is in every lane the product of the input bits in m |
| `Bitslice.AnfInLane` | Experiment3/report/code/sm4_multibuffer_bitslice.c:347-362 | the XOR of a function's collected monomials, evaluated on a lane's bits, is the function at the integer those bits are |
| `Bitslice.SboxTerms.Init` | Experiment3/report/code/sm4_multibuffer_bitslice.c:255-286 | after the first call the eight lists hold the normal forms of the eight output bits of the S-box; later calls keep them |
| `Bitslice.SboxPlanes` | Experiment3/report/code/sm4_multibuffer_bitslice.c:334-369 | on bit-planes, every lane is substituted byte by byte by the S-box |
| `Bitslice.RoundPlanes` | Experiment3/report/code/sm4_multibuffer_bitslice.c:371-379 | on bit-planes, every lane goes through the round function of the scalar cipher |
| `Bitslice.Orthogonalize` | Experiment3/report/code/sm4_multibuffer_bitslice.c:381-400 | bit b of plane w in lane l is bit b of word w of block l |
| `Bitslice.Deorthogonalize` | Experiment3/report/code/sm4_multibuffer_bitslice.c:402-415 | the words it returns are the ones whose planes these are |
| `Bitslice.EncryptBitsliced` | Experiment3/report/code/sm4_multibuffer_bitslice.c:417-460 | for every lane count, S-box, list of round keys and batch, lane l of the output is the scalar encryption of block l, which `Sm4Standard.EncryptIsStandard` ties to the standard's recurrence |
| `Sm4Cipher.EncryptBlockScalar` | Experiment3/report/code/sm4_multibuffer_bitslice.c:226-253 | the scalar loop is the shift-register form of the cipher |
| `Sm4Cipher.SetKeyScalar` | Experiment3/report/code/sm4_multibuffer_bitslice.c:204-224 | the key schedule here and the one of `sm4_set_key` give the same round keys |
| `Sm4Cipher.LinearOfXor` | Experiment3/report/code/sm4_portable.h:103-106 | the linear map distributes over XOR |
| `Sm4Cipher.LinearBit` | Experiment3/report/code/sm4_portable.h:103-106 | bit i of the linear map is the XOR of bits i, i + 30, i + 22, i + 14 and i + 8 mod 32: the rotations by 2, 10, 18 and 24 |
| `Sm4Cipher.KeyLinearBit` | Experiment3/report/code/sm4_portable.h:108-111 | bit i of the key linear map is the XOR of bits i, i + 19 and i + 9 mod 32: the rotations by 13 and 23 |
| `Sm4Standard.RoundBit` | Experiment3/report/code/sm4_portable.h:90-106 | the round function bit by bit: those five bits of the word whose bytes have gone through the S-box |
| `Sm4Standard.KeyRoundBit` | Experiment3/report/code/sm4_portable.h:108-111 | the same for the key schedule, with its three bits |
| `Sm4Standard.RoundsAreWords` | Experiment3/report/code/sm4_portable.h:176-182 | after n rounds the registers are words n .. n + 3 of the recurrence X[i + 4] = X[i] XOR T(X[i + 1] XOR X[i + 2] XOR X[i + 3] XOR key i), which starts with the input's words |
| `Sm4Standard.EncryptIsStandard` | Experiment3/report/code/sm4_portable.h:184-221 | an encrypted block has the big-endian words X[35], X[34], X[33], X[32] of the recurrence that starts with the block's big-endian words, for 32 round keys; so for any number of them |
| `Sm4Standard.DecryptIsStandard` | Experiment3/report/code/sm4_portable.h:184-226 | and a decrypted block those of the recurrence over the round keys in reverse order |
| `Sm4Standard.RoundKeyIsStandard` | Experiment3/report/code/sm4_portable.h:152-174 | round key i is word i + 4 of the recurrence over CK, with the key's round function, that starts with the words of the key XORed with FK |
| `Sm4Cipher.TableRoundIsRound` | Experiment3/report/code/sm4_portable.h:135-145 | with filled tables the four look-ups are the linear map of the S-box word, for every word and every S-box |
| `Sm4Cipher.Tables.Prepare` | Experiment3/report/code/sm4_portable.h:113-128 | the four tables are filled with the linear map of each shifted S-box value, once, and later calls keep them |
| `Sm4Cipher.SetKey` | Experiment3/report/code/sm4_portable.h:152-174 | in either build: the tables are filled afterwards, and the unrolled schedule gives the 32 words that the shift register with the key linear map takes in |
| `Sm4Cipher.Rnds` | Experiment3/report/code/sm4_portable.h:176-182 | four rounds in place without moving registers are four rounds of the shift register |
| `Sm4Cipher.AllRounds` | Experiment3/report/code/sm4_portable.h:184-216 | eight groups of four are the 32 rounds of the shift register |
| `Sm4Cipher.CryptBlock` | Experiment3/report/code/sm4_portable.h:184-216 | writes the encryption or decryption of the 16 bytes read, also in place, and no other byte |
| `Sm4Cipher.RoundsUndone` | Experiment3/report/code/sm4_portable.h:176-216 | for any round function and keys, the flipped result run with the keys reversed gives the start flipped |
| `Sm4Cipher.DecryptUndoesEncrypt` | Experiment3/report/code/sm4_portable.h:184-226 | decryption of an encrypted block is the block, for any round function and any round keys |
| `Sm4Cipher.EncryptUndoesDecrypt` | Experiment3/report/code/sm4_portable.h:184-226 | and the other way round |
| `Sm4Cipher.TablesSameCipher` | Experiment3/report/code/sm4_portable.h:113-226 | with filled tables the table build and the other encrypt and decrypt every block alike, with any round keys |
| `Words.StoreLoad` | Experiment3/report/code/sm4_portable.h:74-88 | storing a word and loading it gives the word |
| `Words.LoadStore` | Experiment3/report/code/sm4_portable.h:74-88 | loading four bytes and storing them gives the bytes |
| `Cbc.Sm4CbcRoundTrip` | Experiment3/report/code/sm4_portable.h:235-271 | CBC decryption undoes CBC encryption and the reverse, for every IV and every number of blocks |
| `Cbc.CbcStream` | Experiment3/report/code/sm4_portable.h:235-251 | encrypting in two calls, the second with the IV the first left, is encrypting once |
| `Cbc.EncryptedBlock` | Experiment3/report/code/sm4_portable.h:235-251 | ciphertext block i is the encryption of plaintext block i XORed with ciphertext block i - 1, or with the IV for i = 0 |
| `Cbc.EncryptedBytes` | Experiment3/report/code/sm4_portable.h:235-251 | so for the bytes of the two buffers: bytes 16k .. 16k + 15 of the output are the encryption of those of the input XORed with the 16 output bytes before them |
| `Cbc.DecryptedBytes` | Experiment3/report/code/sm4_portable.h:253-271 | bytes 16k .. 16k + 15 of the output are the decryption of those of the input XORed with the 16 input bytes before them |
| `Cbc.CbcEncryptBuffer` | Experiment3/report/code/sm4_portable.h:235-251 | refuses exactly the lengths not divisible by 16 and then changes nothing; else the output is the CBC encryption, the IV is the last ciphertext block and no byte after the length changes, also when input and output are one buffer |
| `Cbc.CbcDecryptBuffer` | Experiment3/report/code/sm4_portable.h:253-271 | the same for decryption; in place, the saved ciphertext block still chains |
| `Cbc.EncryptThenDecrypt` | Experiment3/report/code/sm4_portable.h:235-271 | encrypting and then decrypting one buffer in place with equal IVs leaves the buffer as it was |
| `CbcBuilds.TablesSameCbc` | Experiment3/report/code/sm4_portable.h:135-271 | and so do their CBC functions, on inputs of every length |
| `CbcBuilds.SetKeyAndEncrypt` | Experiment3/report/code/sm4_portable.h:152-251 | setting the key and encrypting a buffer gives the CBC encryption with the plain round function, whichever build it is and whether or not the tables were filled before; the IV is then the last ciphertext block, bytes after the length stay, and a refused length changes neither output nor IV |
| `CbcBuilds.SetKeyAndDecrypt` | Experiment3/report/code/sm4_portable.h:152-271 | the same for decryption |
| `CbcSplit.FairSplit` | Experiment3/report/code/sm4_cbc_decrypt_parallel.c:66-77 | the ranges are contiguous, cover all blocks, and each has the floor or the ceiling of blocks / threads; the last blocks mod threads of them have the ceiling, which fixes where each starts |
| `CbcParallel.SplitBlocks` | Experiment3/report/code/sm4_cbc_decrypt_parallel.c:66-77 | the loop that fills the arguments hands out those ranges |
| `CbcParallel.WriteKeepsProgress` | Experiment3/report/code/sm4_cbc_decrypt_parallel.c:39-52 | a byte written by one worker keeps what all workers have written, and the bytes after the last block |
| `CbcParallel.CbcDecryptParallel` | Experiment3/report/code/sm4_cbc_decrypt_parallel.c:54-86 | for every thread count and every interleaving of the workers' steps, byte by byte, the output is that of the sequential CBC decryption; when creating a thread fails it returns 0 and each byte is still the old one or the right one; bytes after the length stay |
| `Simd.PackTransposes` | Experiment3/report/code/sm4_multibuffer_simd.c:284-295 | the four packs transpose the 4 x 4 words of each half of the registers |
| `Simd.SwapOfLoad` | Experiment3/report/code/sm4_multibuffer_simd.c:318-326 | a little-endian load with the bytes of each word turned around is the big-endian load |
| `Simd.LookUp` | Experiment3/report/code/sm4_multibuffer_simd.c:336-355 | four gathers, lowest byte first, XORed one by one onto X[0], add the round function of the word |
| `Simd.NewWord` | Experiment3/report/code/sm4_multibuffer_simd.c:330-355 | in every lane the new word is that of one round of the cipher |
| `Simd.RoundLoop` | Experiment3/report/code/sm4_multibuffer_simd.c:328-361 | in every lane the 32 rounds are those of the cipher, with the keys reversed when `enc` is not 0 |
| `Simd.LoadRegisters` | Experiment3/report/code/sm4_multibuffer_simd.c:305-326 | block l comes to lane 4 (l mod 2) + l / 2 as its four big-endian words |
| `Simd.StoreRegisters` | Experiment3/report/code/sm4_multibuffer_simd.c:363-376 | each block comes back from its lane with its words in reverse order |
| `Simd.SimdDo` | Experiment3/report/code/sm4_multibuffer_simd.c:299-377 | block l of the output is the encryption, or decryption, of block l of the input |
| `Multibuffer.NextWanted` | Experiment3/report/code/sm4_multibuffer_bitslice.c:507-520 | the next ciphertext block of a stream is the encryption of its input block XORed with its running IV |
| `Multibuffer.LaneIvIs` | Experiment3/report/code/sm4_multibuffer_bitslice.c:501-505 | the IV of a lane has the first 15 bytes of base_iv, and bit i of its last byte differs from base_iv's exactly when bit i of the lane's number is set |
| `Multibuffer.LaneIvsDiffer` | Experiment3/report/code/sm4_multibuffer_bitslice.c:501-505 | the IVs of the first 256 lanes are pairwise different |
| `Multibuffer.EqualStreamsDiffer` | Experiment3/report/code/sm4_multibuffer_bitslice.c:501-520 | streams in different ones of the first 256 lanes that start with the same block have different first ciphertext blocks |
| `Multibuffer.StreamIsBlocks` | Experiment3/report/code/sm4_multibuffer_bitslice.c:504-520 | the blocks of a stream are those of the buffer from the stream's first byte on |
| `Multibuffer.LockstepWrite` | Experiment3/report/code/sm4_multibuffer_bitslice.c:516-520 | writing one stream's block keeps all streams' progress and unread input, also in one buffer |
| `Multibuffer.EncryptBatch` | Experiment3/report/code/sm4_multibuffer_bitslice.c:514 | both engines encrypt each block of a batch on its own |
| `Multibuffer.EncryptStreams` | Experiment3/report/code/sm4_multibuffer_simd.c:426-468 | the lockstep loop for any list of non-overlapping streams |
| `Multibuffer.MultibufferCbcEncrypt` | Experiment3/report/code/sm4_multibuffer_bitslice.c:489-522 | for every number of lanes and stream length, each stream gets exactly the CBC encryption of its whole blocks under an IV that is base_iv but for the bits of byte 15 that are set in its number, and no other byte changes; with either engine |
| `DecoderPool.PoolCtx.GetUsableDecoder` | work/openhitls/codecs/src/decode_chain.c:194-230 | the decoder found was untried and fits the node, and no decoder before it in the list was and does; to fit, a format that is given is the decoder's, and a type that is given is the decoder's if it has one, both up to the case of letters; it is marked as being tried |
| `DecodeModel.AcceptsExactly` | work/openhitls/codecs/src/decode_chain.c:207-223 | the four branches together say just that |
| `DecodeModel.TargetExactly` | work/openhitls/codecs/src/decode_chain.c:323-332 | the search is at the target if and only if format and type are each given where the target's is and equal to it up to the case of letters |
| `DecoderPool.PoolCtx.TryDecode` | work/openhitls/codecs/src/decode_chain.c:249-283 | one decode call; a failed one marks the decoder tried and leaves the path; a successful one marks it successful, stores its output in the node and adds a node whose input is that output under the names the decoder gave; an output that is not named is dropped and ends the search |
| `DecoderPool.PoolCtx.ResetLastNode` | work/openhitls/codecs/src/decode_chain.c:285-302 | the node before the last gives its output back and is cleared, then the last node gives back what it holds and goes, and the cursor is on the last node again |
| `DecoderPool.PoolCtx.BackToLastLayer` | work/openhitls/codecs/src/decode_chain.c:304-321 | the path has lost its last node, and the one before it keeps its input and has no output, no decoder and the target's names; tried decoders, but not successful ones, are untried again |
| `DecoderPool.PoolCtx.DecodeWithKeyChain` | work/openhitls/codecs/src/decode_chain.c:334-367 | the loop over lists, cursors and decoder objects ends with the status and the whole state of the model's search: nodes, decoder states, outputs made, given back and lost, and the number of calls |
| `DecoderPool.PoolCtx.FreeCtx` | work/openhitls/codecs/src/decode_chain.c:95-111 | freeing the pool gives back every output that is still on the path, once, and empties both lists |
| `DecoderPool.DecodeAndFree` | work/openhitls/codecs/src/decode_chain.c:334-367 | over the life of a pool each output made is given back once or lost; one is lost exactly when the search comes to a node whose first usable decoder does not name its output, and none if the decoders name what they make of derivable data; at most n (n + 3) / 2 calls |
| `DecodeModel.StepDecreases` | work/openhitls/codecs/src/decode_chain.c:334-367 | each turn decreases decoders not successful, then path length, then untried decoders, so the search ends |
| `DecodeTheorems.StepKeepsInv` | work/openhitls/codecs/src/decode_chain.c:334-367 | kept by every turn: each node's input is what the decoder of the node before made of its input; decoders on the path are distinct and successful; none is being tried; each output is on the path or was freed, once; the call budget |
| `DecodeTheorems.InvAtEveryTurn` | work/openhitls/codecs/src/decode_chain.c:334-367 | so it holds at every turn of every search |
| `DecodeTheorems.SolveDelivers` | work/openhitls/codecs/src/decode_chain.c:339-344 | on success the result has the target format and type, is the composition of the path's decoders, which are distinct, applied to the input, and has not been given back; otherwise the path is empty or a decoder gave no output parameters |
| `DecodeTheorems.EveryOutputFreedOnce` | work/openhitls/codecs/src/decode_chain.c:249-302 | at the end every output is on the path, freed or lost, once, and at most one is lost |
| `DecodeLost.NothingLost` | work/openhitls/codecs/src/decode_chain.c:249-283 | if no decoder leaves unnamed what it makes of data it accepts and that is derivable from the input, nothing is lost and the search does not abort |
| `DecodeLost.LosesExactly` | work/openhitls/codecs/src/decode_chain.c:261-265 | an output is lost if and only if the search comes to a node whose first usable decoder decodes it and names nothing; then it is the last output made |
| `DecodeLost.AbortsExactly` | work/openhitls/codecs/src/decode_chain.c:261-265 | the search aborts if and only if it comes to such a node |
| `DecodeLost.OutputLost` | work/openhitls/codecs/src/decode_chain.c:261-265 | one decoder that names nothing: its output is neither on the path nor freed |
| `DecodeTheorems.NoUseAfterFree` | work/openhitls/codecs/src/decode_chain.c:285-302 | no input of a node on the path has been freed |
| `DecodeTheorems.SolveCallsBounded` | work/openhitls/codecs/src/decode_chain.c:334-367 | with n decoders there are at most n (n + 3) / 2 decode calls |
| `DecodeComplete.SearchIsComplete` | work/openhitls/codecs/src/decode_chain.c:334-367 | a chain of decode calls from the input to the target format and type exists if and only if the search finds one, for decoders that name their outputs and that treat alike (fail, or give the same format and type) whatever they accept of the data derivable from the input; decoders that fail are included |
| `DecodeComplete.MissedMeansMixed` | work/openhitls/codecs/src/decode_chain.c:334-367 | whatever the decoders do, what is found has a chain; the second half restates `SearchIsComplete` from the other side: a chain that is missed means that some decoder leaves an output unnamed or treats two pieces of derivable data that it accepts differently |
| `DecodeMissed.ChainMissed` | work/openhitls/codecs/src/decode_chain.c:278-281 | in general it does not: two decoders for which a chain exists and the search reports that there is none, because a decoder tried on one node is not tried on the next |
| `DecodeMissed.NotUsedAgain` | work/openhitls/codecs/src/decode_chain.c:267-271 | nor when a chain needs a decoder twice: one decoder for which the chain of two calls exists and the search reports that there is none |
| `ModuleDeps.FeatureParser.GetModuleDeps` | work/openhitls/script/config_parser.py:188-208 | the recursion on the shared list and set ends, by the modules not on the path, as the model's search does; it restores the list when it returns, and leaves list and set as the model says when it raises |
| `ModuleDeps.SearchAdds` | work/openhitls/script/config_parser.py:188-208 | from any path, exactly the names on the path and on a walk down to a module without `.deps` are added |
| `ModuleDeps.FailsExactly` | work/openhitls/script/config_parser.py:195-205 | from an empty path and with any result set it raises exactly when a dependency cycle or an unknown module is reachable, and says which |
| `ModuleDeps.FailureHasWalk` | work/openhitls/script/config_parser.py:202-208 | when it raises, the list holds the walk to the repeated or unknown module |
| `ModuleDeps.AddedIsMet` | work/openhitls/script/config_parser.py:198-208 | also when it raises, the result keeps what it had and gains only names on the path or reachable modules |
| `ModuleDeps.AddsExactly` | work/openhitls/script/config_parser.py:198-208 | on success the result gains exactly the modules reachable in one or more steps from which a module without `.deps` is reached |
| `ModuleDeps.CollectsAllExactly` | work/openhitls/script/config_parser.py:198-208 | that is every reachable module if and only if no reachable module has an empty `.deps` list |
| `ModuleDeps.EmptyDepsMissed` | work/openhitls/script/config_parser.py:202-208 | a module with an empty `.deps` list that is reached and not collected |
| `MatmulModel.CellIsFold` | Experiment1/task1/code/matmul.c:33-103 | whatever updates C[i,j] += A[i,k] * B[k,j] are made in whatever order, a cell ends with exactly its own terms in the order they were added |
| `MatmulModel.SumExactly` | Experiment1/task1/code/matmul.c:33-43 | a cell is the product's, that is the last of partial sums that start with zero and add A[i,k] * B[k,j] for k = 0, 1, ..., if and only if it is what adding the terms in that order gives |
| `MatmulModel.ProductIsUnique` | Experiment1/task1/code/matmul.c:33-230 | two versions that leave the product leave the same array, for any add, mul and zero |
| `MatmulLaws.FlatProduct` | Experiment1/task1/code/matmul.c:33-43 | on the flat arrays: C[i * N + j] is the last partial sum, and each adds A[i * K + k] * B[k * N + j] to the one before |
| `MatmulLaws.UnitColumnPicks` | Experiment1/task1/code/matmul.c:33-43 | over the integers, if column j of B is 1 in row p and 0 elsewhere, column j of the product is column p of A |
| `MatmulModel.RowsUpdate` | Experiment1/task1/code/matmul.c:50 | a write at i * N + j changes that cell of the matrix and no other |
| `MatmulModel.BlockedCovers` | Experiment1/task1/code/matmul.c:87-103 | blocking gives every cell all its terms in increasing k, for every block size, also one that does not divide the dimensions |
| `MatmulModel.CoveringIsProduct` | Experiment1/task1/code/matmul.c:28-103 | updates that give every cell its terms in increasing k turn a cleared C into the product |
| `Matmul.Matrices.Clear` | Experiment1/task1/code/matmul.c:28-30 | C is all zero |
| `Matmul.Matrices.Naive` | Experiment1/task1/code/matmul.c:33-43 | C is the product, whatever it was before |
| `Matmul.Matrices.Ikj` | Experiment1/task1/code/matmul.c:46-55 | i-k-j on a cleared C leaves the same product |
| `Matmul.Matrices.Transpose` | Experiment1/task1/code/matmul.c:62-66 | B_T[j * K + k] = B[k * N + j] for all k and j |
| `Matmul.Matrices.Transposed` | Experiment1/task1/code/matmul.c:58-81 | the version that reads the transposed B leaves the same product |
| `Matmul.Matrices.BlockedRows` | Experiment1/task1/code/matmul.c:142-162 | the blocked nest over the rows of one thread makes exactly the updates of its program, in order |
| `Matmul.Matrices.Blocked` | Experiment1/task1/code/matmul.c:87-103 | the blocked version leaves the same product |
| `Matmul.Matrices.RowUnrolled` | Experiment1/task1/code/matmul.c:187-199 | four columns at a time and then the rest are the same updates as one at a time, for every N |
| `Matmul.Matrices.IkjUnrolled` | Experiment1/task1/code/matmul.c:183-201 | the unrolled version leaves the same product |
| `Matmul.Matrices.BlockedTransposed` | Experiment1/task1/code/matmul.c:205-230 | the blocked version on the transposed B leaves the same product |
| `Matmul.Matrices.Tile` | Experiment1/task1/code/matmul.c:111-123 | the i-k-j nest over the rows of one thread makes exactly the updates of its program, in order |
| `MatmulThreads.RowsAreSplit` | Experiment1/task1/code/matmul.c:128-132 | the threads' rows follow each other from 0 to M, the last thread taking the remainder |
| `MatmulThreads.StoreKeepsInv` | Experiment1/task1/code/matmul.c:111-162 | a store of one thread leaves each cell with what its owner has done so far, and every value loaded by another thread is still the one in C |
| `MatmulThreads.SplitRows` | Experiment1/task1/code/matmul.c:124-134 | each thread gets the i-k-j updates of its own rows, and they cover them |
| `MatmulThreads.SplitRowsBlocked` | Experiment1/task1/code/matmul.c:164-174 | the same for the blocked updates |
| `MatmulThreads.RunThreads` | Experiment1/task1/code/matmul.c:124-139 | loads and stores of C interleaved in any order leave the product |
| `MatmulThreads.Multithread` | Experiment1/task1/code/matmul.c:124-139 | for every thread count at least 1, the threaded version leaves the same product |
| `MatmulThreads.MultithreadBlocked` | Experiment1/task1/code/matmul.c:164-179 | and so does the threaded blocked version, for every block size at least 1 |
| `Strtok.IsInDelimit` | work/libboundscheck/src/strtok_s.c:17-24 | whether the character stands in the delimiter string with no zero character up to it |
| `Strtok.DelimsExactly` | work/libboundscheck/src/strtok_s.c:17-24 | the delimiters are exactly those characters, so the zero is none |
| `Strtok.EndExactly` | work/libboundscheck/src/strtok_s.c:30-61 | the string ends at its first zero character from the pointer on |
| `Strtok.FindBegin` | work/libboundscheck/src/strtok_s.c:30-42 | the first character from the pointer on that is no delimiter, or the NUL |
| `Strtok.FindRest` | work/libboundscheck/src/strtok_s.c:47-61 | puts a NUL on the first delimiter and returns the place after it, or returns the end and changes nothing |
| `Strtok.StrtokS` | work/libboundscheck/src/strtok_s.c:95-112 | NULL pointers end the call with nothing changed; else token, context and string are those of one call of the model |
| `Strtok.CallReadsToNul` | work/libboundscheck/src/strtok_s.c:30-61 | what is after the NUL makes no difference to token and context, and stays, as does what is before the pointer |
| `Strtok.TokenExactly` | work/libboundscheck/src/strtok_s.c:90-112 | the token is at the pointer if and only if the character there is neither NUL nor a delimiter; it is NULL if and only if only delimiters are left before the NUL |
| `Strtok.LeadingDelimiterSkipped` | work/libboundscheck/src/strtok_s.c:90-112 | a first call on a string that starts with a delimiter returns the second character, not the first non-NUL one |
| `Strtok.CallsReturnRuns` | work/libboundscheck/src/strtok_s.c:95-112 | any number of calls return longest delimiter-free stretches of the original string, in order, each readable as a string of its own, with none left out; only the delimiters right after tokens have changed |
| `Strtok.NullAfterAllRuns` | work/libboundscheck/src/strtok_s.c:66-75 | a call returns NULL if and only if all stretches have been returned |
| `Strtok.NullForEver` | work/libboundscheck/src/strtok_s.c:66-75 | after a NULL every later call returns NULL |
| `Strtok.NullComes` | work/libboundscheck/src/strtok_s.c:66-75 | the NULL comes after no more calls than the string has characters |
| `Strtok.CallRepeatedly` | work/libboundscheck/src/strtok_s.c:79-94 | a caller that passes the string first and NULL afterwards sees exactly that sequence |
| `RingList.Init` | work/openhitls/bsl/include/bsl_module_list.h:38 | the node alone is a ring |
| `RingList.AddAfter` | work/openhitls/bsl/include/bsl_module_list.h:47-52 | the ring is the old one with the item after the node: its four links are set, all others stay |
| `RingList.AddBefore` | work/openhitls/bsl/include/bsl_module_list.h:61 | the ring is the old one with the item before the node, and its four links are set, although the macro reads `(where)->prev` again in each statement |
| `RingList.Remove` | work/openhitls/bsl/include/bsl_module_list.h:68-71 | the ring is the old one without the item: its neighbours are linked to each other, and its own links stay |
| `RingList.AddThenRemove` | work/openhitls/bsl/include/bsl_module_list.h:47-71 | removing what was added leaves every link of the ring as it was |
| `RingList.ForEachSafe` | work/openhitls/bsl/include/bsl_module_list.h:87-88 | each original node is visited once, in order, whichever current nodes the body removes and whatever it does to their links; the rest stay a ring in order |
| `RingList.SurvivorsAre` | work/openhitls/bsl/include/bsl_module_list.h:87-88 | that rest is the head and the nodes not removed |

## Left out

- DecodeComplete.SearchIsComplete: decoders that treat two pieces of data differently, or that leave an output unnamed, may still have their chain found; for them only `MissedMeansMixed` and the two witnesses are stated, since what is found then depends on the order of the search.
- ModuleDeps.FeatureParser.GetModuleDeps: splitting the name at `::` is part of the lookup, and a name without exactly one `::` counts as unknown.
- DecoderPool.PoolCtx.DecodeWithKeyChain: the pool is already filled; building it, provider callbacks, failing allocations and NULL arguments are not part of the model, and decoders are functions from data to an outcome. The same holds for `TryDecode`.
- Multibuffer.MultibufferCbcEncrypt: input and output are one buffer or two separate ones; buffers that overlap in part are not modelled. The same holds for the CBC functions.
- CbcParallel.CbcDecryptParallel: input and output are different buffers, as the workers need; after an early return the workers still running are followed up to that moment only.
- CacheSimulation.Configure: an associativity is "full" or an integer; turning other strings into integers is not modelled.
- Strtok.StrtokS: the string and the delimiters do not share memory, and the context points into the string.
- Matmul.Matrices.Naive: entries are of any type with any two operations; a compiler that fuses a multiplication and an addition in one loop but not in another, and overflow of `int` indices, are not modelled.
- The values of the S-box, the FK and CK constants and the precomputed BOX tables; BOXk is assumed to hold the linear map of each S-box value shifted by 8k bits.
- `sm4_simd_key_init`: the same schedule as `sm4_set_key_scalar`.
- The AVX2, AVX-512 and RISC-V vector backends of the bitsliced engine: they only change the width of a plane, and any lane count is covered.
- `sm4_single_stream_riscv_zksed.c`: its instruction works on byte-swapped words and is not claimed to equal the portable code.
- `thread_final_optimize` and `matmul_v8`: the first publishes the shared transpose before filling it, the second indexes a transpose as B, so neither leaves the product in general.
- Trace parsing, command lines, timing, plotting, checksums and file output.
- `SetFlagFreeOutData`, the feature closures `_get_related_feas` and `_add_depend_feas`, and the other libboundscheck functions.
- Inclusion between caches of equal size and different associativity, and inclusion for FIFO: not claimed, since the set count changes in the first and the eviction order differs in the second.
