# A verified model of the Bitcoin message service

The repository hides a text in a chain of Bitcoin transactions and reads it back. This project models the code
that does so, and the Bitcoin and JSON code below it, in Dafny, and proves what the code is for:

- **End to end.** `Messages.SendMessage` composes compression, embedding and signing; its contract says that the
  signed chain reads back as the text, and when the chain exists.
- **Compression.** Huffman's tree is optimal among all prefix codes, the codes are a complete prefix code, and
  decompression undoes compression whatever bits follow, if and only if the data holds no EoF.
- **Ranking.** Permutations and weak compositions are in order-preserving bijection with their ranks, for every
  seed of the floating-point root.
- **The chain.** Each transaction carries its bits in values, claim order, OP_RETURN data, public keys and sequence
  numbers, each of which holds its own window of the data (`CarrierWindows`); money is conserved, and every spendable
  output is claimed exactly once.
- **Signing.** Every input of the authorized chain verifies against the output it claims, on the finished
  transaction, by the modelled script interpreter. `VerifySoundness` says what that proves: the script with the hash
  that the output names was pushed, and one of its keys made the pushed signature for this transaction. What a
  signature signs is the serialized transaction of `SignedFields`, field by field.
- **Script.** The interpreter loop refines a step relation whose runs are bounded and balanced; CHECKMULTISIG
  decides exactly whether an order-preserving matching exists, and pay-to-script-hash and pay-to-pubkey-hash outputs
  are accepted exactly for the signature scripts that they are meant for (`StandardScripts`).
- **Formats.** Where a reader and a writer share a format, its bytes are also stated by themselves: a transaction by
  positions (`TransactionLayout`), scripts, numbers, amounts and digits (`Formats`), JSON texts and escapes
  (`JsonTexts`, `JsonEscapes`).
- **Primitives.** Merkle branches, transaction serialization, variable-length integers, compressed amounts, the
  ring buffer over a file, counted page locks and multi-limb arithmetic.
- **JSON.** What the fast writer prints, the reader parses to the same value, if and only if the numbers survive.

Code that changes state is modelled by classes and by methods with loops: `Bits.BitQueue`,
`Huffman.PriorityQueue`, `Compression.CodeTable`, `ScriptHashes.Session` (the key store), `Merkle.Block`,
`BufferedFile.BufferedFile`, `PageLocks.LockedPageManager`, `BaseUints.BaseUint`, `Streams.DataStream`,
`ScriptLoops.ScriptBuilder`, `ScriptLoops.ScriptCursor`, `JsonValues.FastWriter` and `JsonReader.Reader`. `Runs`
describes the turns of the embedding loop. Each method is tied by its `ensures` to a function of its inputs or of the
old state, and the lemmas are about that function.

Hashes, signature verification, the signer, curve membership, the root estimate, key generation and the wallet are
values of function type (`Signatures.Crypto`, `ScriptHashes.Setup`, parameters); nothing is assumed about them
except where a contract says so, such as that two scripts do not share a hash, or that the key generator
eventually meets every suffix. In particular no result about chains assumes which keys lie on the curve.

## Where the code does not do what it promises

Each point has a lemma that says exactly when it happens, for all inputs, and one with an input.

- `EncodeDataInPubkey` draws random bits until the key lies on the curve. A payload none of whose 32 keys does is
  never embedded: a step of `EmbedData` goes through if and only if the budget suffices and every payload that it
  cuts out has a point (`EmbedStep`), and with the reserve in the budget a whole run completes if and only if all of
  its payloads have one (`CompletesExactly`). Data of one suffix and a payload without has no chain
  (`NoPointNoChain`), and a curve that misses a single block is enough (`OneBlockMissing`).
- `EmbedData` on empty data subtracts the first fee but gives the first transaction no output, so money is lost
  unless the budget is exactly that fee (`NothingConserved`, `MoneyLost`).
- The fee of the last transaction is computed before its output is added. It is too small if and only if
  there is a rate and the output carries the size over a multiple of 1000 (`FeeBeforeOutput`, `LastPaysLess`, `FeeTooSmall`).
- The estimate of `OptimizeParams` for the value split uses the budget less the fees, while the split itself first
  sets aside 546 for each output; and its estimate for the keys uses the configured number of random bits, while
  `PackDataIntoP2SH` always uses five. A further transaction is needed although the chosen number was thought to
  suffice if and only if the bits lie between the room of the step and the estimate, for every configuration
  (`EstimateMisses`, `EstimateTooLarge`, `KeysTooLarge`).
- `OptimizeParams` stops at the first number of script hashes that does not suffice, and smaller ones may
  (`FewestExactly`, `NotTheFewest`); with at least 768 bits for each script hash they do not (`FewestScriptHashes`).
- The guard of `SetPos` adds the rewind distance in 64 bits; near 2^64 it wraps and the position leaves the
  guaranteed window (`SetPosStaysInside`, `SetPosCanEscape`). With a rewind distance equal to the buffer size,
  `FindByte` looks at a buffer that was never filled: it finds a zero in any file, and never ends for another byte
  (`OnlyZeros`).
- `LockRange` ends if and only if the range does not reach into the last page of the address space: otherwise no
  number of rounds brings the wrapping address past it (`LoopEnds`, `LastByteNeverEnds`).
- `BinomialCoefficient` counts in 32 bits and divides by zero where the index wraps (`BinomialCoefficient`, `IndexWraps`).
- The Merkle root does not determine the leaves. Unless hashes collide, two trees share a root if and only if the
  level of the higher one at the height of the lower one has, after duplication at every odd level, the leaves of
  the lower one (`SameRoot`, `SixAndEight`, `LeafAndParent`).
- The array reader takes any token behind an item for a separator: it reads more than the grammar with commas
  exactly where a token behind an item is neither a comma nor the closing bracket (`SeparatorsMatter`,
  `ColonSeparatesItems`). The object reader does so behind a member and a comment, and it accepts a brace behind a
  comma if the last member had no name (`MemberSeparatorsMatter`, `CommentAndColon`, `TrailingComma`).
- Names and strings with an escaped NUL end there when they are stored (`CutBehind`).
- The number reader compares with a tenth of the limit, so integers below -2147483639 (or above 4294967289) come
  back as doubles, and unsigned numbers up to 2147483647 come back as signed ones (`DocumentRoundTrip`,
  `NumberThatChanges`).
- The table in the comment above `WriteVarInt` gives 16511 three bytes and 65535 the bytes 82 fd 7f; the code, which
  follows the formula in the same comment, writes ff 7f and 82 fe 7f (`VarIntDigits`, `TableDiffers`).
- Data that contains the EoF symbol is cut there by decompression (`Compression.RoundTrip`, `CutAtEoF`). The program's own text
  transformation removes that symbol first.

## Model

| member | source | states |
|---|---|---|
| `Messages.SendMessage` | src/Main.cpp:83-120 | Every returned chain is signed, and as long as no two redeem scripts share a hash it reads back as the text without its unsupported characters, each carrier holds its window of the compressed text, and every input is signed by a key of the redeem script that its output names. With different hashes and a wallet that signs there is a chain if and only if the run of the embedding loop completes |
| `Messages.GeneratedCodesText` | src/lib/bms/DataCompression.cpp:193-202 | The Huffman code for a text with every supported character and the EoF is one that sending can use |
| `Messages.BuildCodes` | src/lib/bms/DataCompression.cpp:131-202 | Counting and code generation on such a sample give that code |
| `Messages.OpenSession` | src/lib/bms/Utilities.cpp:82-114 | Generated keys with different hashes, loaded into the store, give a session in which messages can be sent |
| `Messages.ReadMessage` | src/Main.cpp:147-157 | Extracting and decompressing any well-formed chain gives the text the chain holds |
| `ChainBuilding.EmbedData` | src/lib/bms/BlockchainInterface.cpp:426-504 | Every returned chain gives back the data followed only by zero bits, and each carrier of each transaction holds its window of the data; each transaction embeds its step of the protocol, the last pays the rest to the destination, and money is conserved in every transaction if and only if there was data (or the budget was exactly the first fee). There is a chain if and only if the run of the loop completes and the last fee is covered, and for no data if and only if the budget covers both fees |
| `ChainBuilding.EmbedAll` | src/lib/bms/BlockchainInterface.cpp:441-494 | The embedding loop is a run: it gets to its end exactly if its last step goes through, and then all bits are sent and what is left of the budget is known |
| `Runs.CompletesExactly` | src/lib/bms/BlockchainInterface.cpp:441-501 | With the reserve in the budget a run completes if and only if every payload that it cuts out has a point on the curve |
| `Runs.DrawableCompletes` | src/lib/bms/BlockchainInterface.cpp:441-501 | It completes in any case if every window of the data has one |
| `Runs.ChosenOnce` | src/lib/bms/BlockchainInterface.cpp:336-416 | The parameters of a step are determined by its inputs, bits and budget |
| `Runs.NoPointNoChain` | src/lib/bms/DataInterface.cpp:86-97 | Data that begins with a key suffix and one payload none of whose keys is on the curve has no run that completes, whatever the budget: the source draws forever |
| `Runs.OneBlockMissing` | src/lib/bms/DataInterface.cpp:86-97 | A curve that misses one block of 32 keys is such a case: every other payload has a draw |
| `ChainBuilding.FeeBeforeOutput` | src/lib/bms/BlockchainInterface.cpp:496-501 | The fee computed before the output is added is smaller than that of the finished transaction if and only if there is a fee and the output carries the size over a multiple of 1000 |
| `ChainBuilding.LastPaysLess` | src/lib/bms/BlockchainInterface.cpp:496-501 | What the last transaction of a conserving chain pays is less than its own fee exactly in that case |
| `ChainBuilding.FeeTooSmall` | src/lib/bms/BlockchainInterface.cpp:496-501 | Two inputs with signature scripts of 452 bytes: half of the fee is paid |
| `ChainBuilding.NothingConserved` | src/lib/bms/BlockchainInterface.cpp:441-501 | For empty data the first fee leaves the budget without being paid by an output: conservation holds only if the budget is exactly that fee |
| `ChainBuilding.MoneyLost` | src/lib/bms/BlockchainInterface.cpp:441-501 | A budget of three fees and no data: only one of them is paid out |
| `Embedding.EmbedStep` | src/lib/bms/BlockchainInterface.cpp:443-485 | One turn of the loop goes through if and only if the budget is large enough and every payload it cuts out has a point on the curve. Then the fees are those of the finished transaction, the outputs add up to the budget less the fees, the bits sent are those taken from the front, and exactly as many are left as exceed the room of the step |
| `Embedding.EstimateIsRoom` | src/lib/bms/BlockchainInterface.cpp:346-409 | The estimate by which the parameters are chosen exceeds the room of the step by the bits that 546 for each output would carry, and by eleven bits for each script hash and each random bit configured below five |
| `Embedding.EstimateMisses` | src/lib/bms/BlockchainInterface.cpp:346-409 | The chosen number was estimated to suffice and a further transaction is needed if and only if the number of bits lies between the room and the estimate |
| `Embedding.EstimateTooLarge` | src/lib/bms/BlockchainInterface.cpp:346-409 | 1093 satoshi to split and 5911 bits: two script hashes are chosen as sufficient, and nine bits are left |
| `Embedding.KeysTooLarge` | src/lib/bms/BlockchainInterface.cpp:336-409 | With no random bits configured one script hash is chosen for 2791 bits, and one bit is left |
| `Embedding.FillTransaction` | src/lib/bms/BlockchainInterface.cpp:449-485 | Packs values, claims, OP_RETURN data, keys and sequence numbers so that reading the transaction pair gives the bits taken, in order; it fails exactly where a payload has no key |
| `Embedding.NewPairs` | src/lib/bms/BlockchainInterface.cpp:449-455 | Inputs are inserted at the front but numbered at index i, so only the last input keeps claim n - 1 and the others keep the null index |
| `Embedding.PackInputs` | src/lib/bms/BlockchainInterface.cpp:478-485 | Every input fills the output it claims with the script hash it redeems, whatever the order of the claims; all go through if and only if every payload has a key |
| `Claims.ClaimsEverything` | src/lib/bms/BlockchainInterface.cpp:441-494 | The next transaction claims each spendable output exactly once, never the OP_RETURN output, and so gathers exactly the amount that entered |
| `Chains.ExtractData` | src/lib/bms/BlockchainInterface.cpp:512-565 | What it returns is held, from the first bit to the last, by the carriers of one transaction pair after the other: the rank of the values less 546, the rank of the claims, the bytes behind the first two of the OP_RETURN script, and for each input the suffix of the first key, bits 9 to 258 of each further key and the 32 bits of the sequence number |
| `Chains.TransactionInPlace` | src/lib/bms/BlockchainInterface.cpp:519-561 | Wherever the data of a transaction pair stands, these windows hold it in this order and are as wide as it is long |
| `Chains.ChainInPlace` | src/lib/bms/BlockchainInterface.cpp:512-565 | The widths of the carriers of a chain add up to the length of what is read from it |
| `Chains.PaddedInPlace` | src/lib/bms/BlockchainInterface.cpp:441-492 | Data that is followed by zeros in a chain is what the windows hold, with zeros behind its end |
| `TransactionShapes.OptimizeParams` | src/lib/bms/BlockchainInterface.cpp:336-416 | Chooses the number of script hashes by counting down from the maximum while one fewer still suffices; the fee is that of the transaction with that many outputs |
| `TransactionShapes.FewestExactly` | src/lib/bms/BlockchainInterface.cpp:336-416 | For every configuration: the chosen number is the least sufficient one if and only if no sufficient number is followed by one that is not |
| `TransactionShapes.NotTheFewest` | src/lib/bms/BlockchainInterface.cpp:336-416 | With 21 unsigned inputs and no bits in the keys two script hashes suffice and four are chosen, since the fee jumps in between |
| `TransactionShapes.FeeOfShape` | src/lib/bms/Utilities.cpp:328-334 | The fee depends only on the shape of the outputs, so the fee estimated on dummy outputs is the fee of the finished transaction |
| `Carriers.PackDataIntoSeqNr` | src/lib/bms/BlockchainInterface.cpp:96-104 | Takes at most 32 bits from the front, and the sequence number carries them padded with zeros |
| `Carriers.UnpackDataFromSeqNr` | src/lib/bms/BlockchainInterface.cpp:109-112 | All 32 bits of the sequence number |
| `Carriers.PackDataIntoNulldata` | src/lib/bms/BlockchainInterface.cpp:221-234 | A 42-byte OP_RETURN output of value zero that carries the next 320 bits |
| `Carriers.UnpackDataFromNulldata` | src/lib/bms/BlockchainInterface.cpp:236-242 | The 320 bits of the pushed data |
| `Carriers.PackDataIntoBudgetSplit` | src/lib/bms/BlockchainInterface.cpp:251-270 | The values add up to the budget, each is at least the lower bound, scripts are kept, and reading the split gives the bits taken |
| `Carriers.UnpackDataFromBudgetSplit` | src/lib/bms/BlockchainInterface.cpp:275-286 | Subtracts the bound and decodes the composition |
| `Carriers.PackDataIntoBudgetClaim` | src/lib/bms/BlockchainInterface.cpp:293-311 | Rewrites only the claimed positions, each input claims a different output, and reading the order gives the bits taken |
| `Carriers.UnpackDataFromBudgetClaim` | src/lib/bms/BlockchainInterface.cpp:314-325 | Decodes the permutation of claims |
| `Carriers.CarriedAll` | src/lib/bms/Types.cpp:28-44 | When the queue is empty, what was carried is the data followed only by zeros |
| `ScriptHashes.PackDataIntoP2SH` | src/lib/bms/BlockchainInterface.cpp:124-160 | The output commits to a one-of-many multisignature script whose keys carry the next bits, and the signed input reveals that script last; nothing else of the transaction changes. It goes through if and only if each of the payloads has a key |
| `ScriptHashes.ExtraKeys` | src/lib/bms/BlockchainInterface.cpp:142-152 | As many keys as there are payloads, at most eleven, from which the payloads are read back; None exactly if one of them has no point on the curve |
| `ScriptHashes.UnpackDataFromP2SH` | src/lib/bms/BlockchainInterface.cpp:167-214 | Bits of the suffix of the first key and of the other keys in the script pushed last |
| `ScriptHashes.SignedCarries` | src/lib/bms/BlockchainInterface.cpp:148-214 | Whatever SignSignature writes, the last push of the input is the redeem script and its keys are the packed keys |
| `ScriptHashes.Session.AddCScript` | src/lib/bms/BlockchainInterface.cpp:154-155 | Adding a redeem script stores it, never loses a key and keeps earlier scripts, except one with the same hash |
| `Authorization.AuthorizeTransactions` | src/lib/bms/BlockchainInterface.cpp:572-610 | In the returned chain every input of transaction i names the hash of the bytes of transaction i - 1 and verifies against the output it claims; where that output pays to a script hash, the script of that hash is pushed last, and if it asks for one of many keys, one of these made the pushed signature for the finished transaction. Outputs, claims and sequence numbers are those planned; a chain of signable inputs is always authorized, keeps what it reads as, and each of its inputs is signed by a key with the type that covers all inputs and outputs |
| `Authorization.SignedIsSpent` | src/lib/bms/BlockchainInterface.cpp:595-609 | Every input that verifies is spent in this sense |
| `Authorization.SignableIsSpent` | src/lib/bms/BlockchainInterface.cpp:595-609 | An input that embedding prepared is, once authorized, signed by one of the keys that it carries |
| `Authorization.SignatureCovers` | src/lib/bms/BlockchainInterface.cpp:595-609 | The signature that is written for such an input has type 1, which signs the whole transaction |
| `VerifySoundness.VerifiedIsSpentByKey` | src/lib/core/script.cpp:1602-1641 | A verified input that claims an output paying to a script hash pushes the script with that hash last; if that script asks for one of many keys, some key of it verifies the signature pushed before it, without its last byte, for the hash of the transaction that this byte says is signed |
| `Authorization.SignAll` | src/lib/bms/BlockchainInterface.cpp:595-609 | Inputs signed earlier still verify on the finished transaction |
| `Authorization.StillVerified` | src/lib/core/script.cpp:1021-1096 | Writing one signature script invalidates no input verified before it |
| `Authorization.ContentKeepsChain` | src/lib/bms/BlockchainInterface.cpp:512-610 | Authorization does not change the data of the chain, although it rewrites hashes and signature scripts |
| `Authorization.EmbeddedIsSignable` | src/lib/bms/BlockchainInterface.cpp:441-609 | Every input that embedding produced can be signed again as long as no two redeem scripts share a hash |
| `Keypairs.GenerateKeypairMap` | src/lib/bms/Utilities.cpp:301-321 | The loop ends exactly when every suffix of nBits bits has a key, by counting; each key has its suffix |
| `Keypairs.FullMap` | src/lib/bms/Utilities.cpp:301-321 | A map on vectors of n bits has at most 2^n entries, and 2^n if and only if it is total |
| `Keypairs.LoadKeystore` | src/lib/bms/Utilities.cpp:102-114 | Every key of the map is in the store under its own hash unless two key hashes collide |
| `Keypairs.LoadKeys` | src/lib/bms/Utilities.cpp:82-114 | What embedding needs of its keys holds after loading: each suffix has a key that signs and verifies |
| `DataInterface.EncodeDataInSequenceNr` | src/lib/bms/DataInterface.cpp:30-42 | The number written with the given 32 bits, most significant first |
| `DataInterface.DecodeDataInSequenceNr` | src/lib/bms/DataInterface.cpp:50-60 | The 32 bits of the number, by masks and shifts |
| `DataInterface.SequenceNrRoundTrip` | src/lib/bms/DataInterface.cpp:30-60 | The two are mutually inverse between 32-bit vectors and 32-bit numbers |
| `DataInterface.EncodeDataInPubkey` | src/lib/bms/DataInterface.cpp:68-99 | There is a key if and only if some draw lies on the curve; it is compressed and even, and decoding it gives the data whatever random bits were drawn |
| `DataInterface.DecodeDataInPubkey` | src/lib/bms/DataInterface.cpp:108-116 | Drops the header bits and the random bits |
| `DataInterface.EncodeDataInValues` | src/lib/bms/DataInterface.cpp:141-152 | A weak composition of the budget from which decoding gives the data |
| `DataInterface.DecodeDataInValues` | src/lib/bms/DataInterface.cpp:159-174 | The rank of the composition, padded to the capacity computed from its own sum and length |
| `DataInterface.ValuesRoundTrip` | src/lib/bms/DataInterface.cpp:124-174 | Data of exactly the capacity is a rank, and survives ranking and padding |
| `DataInterface.EncodeDataInPermutation` | src/lib/bms/DataInterface.cpp:197-208 | A permutation from which decoding gives the data |
| `DataInterface.DecodeDataInPermutation` | src/lib/bms/DataInterface.cpp:215-228 | The rank of the permutation padded to the capacity |
| `DataInterface.PermutationRoundTrip` | src/lib/bms/DataInterface.cpp:181-228 | Data of exactly the capacity is the rank of a permutation and survives |
| `DataInterface.LargestCapacities` | src/lib/bms/DataInterface.cpp:124-190 | The capacities are the largest w with two to the w at most (n+k-1)! / ((k-1)! n!) and at most k! |
| `Bits.BitQueue.Pad` | src/lib/bms/Types.cpp:28-32 | Appends zeros to the caller's vector |
| `Bits.BitQueue.Slice` | src/lib/bms/Types.cpp:38-44 | Splits the caller's vector: slice and rest concatenate to what it was |
| `Bits.BoolVecToChar` | src/lib/bms/Types.cpp:52-63 | The byte with these bits, most significant first |
| `Bits.CharToBoolVec` | src/lib/bms/Types.cpp:70-79 | The eight bits of the byte |
| `Bits.DataToBits` | src/lib/bms/Types.cpp:86-96 | The bits of the bytes in order |
| `Bits.BitsToData` | src/lib/bms/Types.cpp:103-119 | The bytes whose bits these are |
| `Bits.BytesToBitsInjective` | src/lib/bms/Types.cpp:86-119 | Different byte strings have different bits, so BitsToData undoes DataToBits |
| `Bits.DataBitsToInt` | src/lib/bms/Types.cpp:126-138 | The number the bits write in base two |
| `Bits.IntToDataBits` | src/lib/bms/Types.cpp:145-156 | The shortest bits that write the number: no leading zero, and no longer than any width that holds it |
| `Bits.ToFromBits` | src/lib/bms/Types.cpp:126-156 | A vector of known length is recovered from its number |
| `Bits.FromBitsConcat` | src/lib/bms/Types.cpp:126-138 | The number of concatenated vectors is that of the first times two to the length of the second, plus that of the second |
| `Formats.FirstBitCounts` | src/lib/bms/Types.cpp:126-138 | The first bit counts most |
| `Formats.ByteInBits` | src/lib/bms/Types.cpp:86-96 | Byte i is the number of the eight bits from 8 i on |
| `Binomials.Factorial` | src/lib/bms/Maths.cpp:25-33 | The factorial |
| `Binomials.BinomialCoefficient` | src/lib/bms/Maths.cpp:41-56 | Equals Pascal's recurrence: the division in every step of the loop is exact; it throws exactly where the smaller of k and n - k exceeds the 32-bit loop index |
| `Binomials.IndexWraps` | src/lib/bms/Maths.cpp:49-53 | 2^33 over 2^32 is such a case |
| `Binomials.ChooseClosedForm` | src/lib/bms/Maths.cpp:41-56 | C(n,k) k! (n-k)! = n! |
| `Binomials.NumberCompositions` | src/lib/bms/Maths.cpp:64-67 | C(n+k-1, k-1) in 64-bit arithmetic; when n+k-1 wraps the result is zero |
| `Permutations.PermutationToInteger` | src/lib/bms/Maths.cpp:74-92 | The lexicographic rank of the sequence |
| `Permutations.IntegerToPermutation` | src/lib/bms/Maths.cpp:100-117 | The permutation of that rank, built by erasing from a list |
| `Permutations.Bijection` | src/lib/bms/Maths.cpp:74-117 | Ranking and unranking are inverse in both directions between 0..k!-1 and the permutations of 0..k-1 |
| `Permutations.RankOrder` | src/lib/bms/Maths.cpp:74-117 | Numeric order of ranks is lexicographic order |
| `Compositions.CompositionToInteger` | src/lib/bms/Maths.cpp:124-142 | The rank of a composition, summed part by part |
| `Compositions.CorrectEstimate` | src/lib/bms/Maths.cpp:165-173 | Whatever the estimate, even when its difference wraps, the two loops end at the largest mu that leaves enough compositions |
| `Compositions.IntegerToComposition` | src/lib/bms/Maths.cpp:151-185 | The composition of that rank, for every estimate function |
| `Compositions.FirstPartUnique` | src/lib/bms/Maths.cpp:165-173 | That mu is the only first part consistent with the index |
| `Compositions.Bijection` | src/lib/bms/Maths.cpp:124-185 | Ranking and unranking are inverse in both directions between 0..N(n,k)-1 and the weak compositions of n into k parts |
| `Compositions.RankOrder` | src/lib/bms/Maths.cpp:124-142 | Numeric order of ranks is lexicographic order |
| `Huffman.BuildTree` | src/lib/bms/DataCompression.cpp:143-167 | A tree on exactly the symbols and frequencies given whose weighted path length is no greater than that of any binary tree shape with the same weights at its leaves; at every node the left subtree is not heavier than the right one |
| `Huffman.MergeStep` | src/lib/bms/DataCompression.cpp:152-164 | Joining the two least frequent trees loses nothing: every bound that could still be met can be met after |
| `CodeTrees.MergeSmallest` | src/lib/bms/DataCompression.cpp:152-164 | Any tree over the weights can be turned into one over the weights with the two smallest merged, at a cost less by their sum |
| `Huffman.TreeCostIsPathLength` | src/lib/bms/DataCompression.cpp:143-167 | The cost summed over merges is the weighted path length |
| `Huffman.OptimalAmongCodeTrees` | src/lib/bms/DataCompression.cpp:143-167 | No code tree on the same symbols has a smaller weighted path length |
| `PrefixCodes.TreeOfCode` | src/lib/bms/DataCompression.cpp:169-202 | Every prefix-free code is at least as costly as some tree, so optimality holds among all prefix codes |
| `HuffmanCodes.CodeOfTree` | src/lib/bms/DataCompression.cpp:169-190 | The codes read off the tree are a prefix code on exactly the symbols, both directions of the map agree, and the Kraft sum is one |
| `HuffmanCodes.PathsPrefixFree` | src/lib/bms/DataCompression.cpp:169-190 | No path to a leaf begins with the path to another |
| `HuffmanCodes.KraftEquality` | src/lib/bms/DataCompression.cpp:169-190 | The halves raised to the path lengths below a node sum to the half raised to its depth |
| `Compression.GenerateCodesBelow` | src/lib/bms/DataCompression.cpp:169-190 | Adds to the shared table exactly the codes of the leaves below the node |
| `Compression.GenerateCodes` | src/lib/bms/DataCompression.cpp:193-202 | The codes are those of an optimal tree for the frequencies whose lighter subtrees stand on the left |
| `CodeOrder.LighterIsZero` | src/lib/bms/DataCompression.cpp:152-190 | Of the symbols whose words begin alike, those that go on with a zero do not occur more often than those that go on with a one |
| `Compression.HuffmanCodeIsPrefixCode` | src/lib/bms/DataCompression.cpp:169-202 | They form a complete prefix code on the symbols, and with two symbols or more no word is empty |
| `Compression.ComputeFrequencies` | src/lib/bms/DataCompression.cpp:131-141 | The frequency map counts every symbol of the text and no other |
| `Compression.TransformKeepsSupported` | src/lib/bms/DataCompression.cpp:77-124 | Newlines, the characters from 20h to 5ah and those from 61h to 7ah are kept in their places, and all others are removed |
| `Compression.TransformCharDomain` | src/lib/bms/DataCompression.cpp:77-124 | No unsupported character remains |
| `Compression.Compress` | src/lib/bms/DataCompression.cpp:210-222 | The words of the symbols and then the EoF word, or nothing when a symbol has no code |
| `Compression.Decompress` | src/lib/bms/DataCompression.cpp:230-252 | The symbols whose words begin the bits, up to the EoF |
| `Compression.RoundTrip` | src/lib/bms/DataCompression.cpp:210-252 | Decompressing the compressed data followed by any bits gives the data if and only if the EoF does not occur in it |
| `Compression.CutAtEoF` | src/lib/bms/DataCompression.cpp:210-252 | An EoF followed by a letter is read as nothing |
| `Compression.TransformedRoundTrip` | src/lib/bms/DataCompression.cpp:121-252 | Transformed text always compresses and always comes back, followed by any bits |
| `Compression.ShortestEncoding` | src/lib/bms/DataCompression.cpp:131-222 | With the frequencies of the text itself, no prefix code encodes the text in fewer bits |
| `InterpreterRuns.EvalScript` | src/lib/core/script.cpp:307-971 | The loop over the script computes the run of the step relation: same final stack, or failure; what the runs of whole scripts are, with their signatures, is stated by the rows below |
| `InterpreterRuns.RunsAreBounded` | src/lib/core/script.cpp:314-966 | In every run, at every instruction: what is left of the script shrinks, stack and altstack hold at most 1000 elements together, and at most 201 operations are counted |
| `InterpreterRuns.EvalIsBounded` | src/lib/core/script.cpp:957-971 | A successful evaluation leaves at most 1000 elements |
| `InterpreterRuns.SuccessIsBalanced` | src/lib/core/script.cpp:394-430 | A script succeeds only if its IF, NOTIF, ELSE and ENDIF are balanced |
| `InterpreterRuns.StepDepth` | src/lib/core/script.cpp:394-430 | Which instruction opens, keeps or closes a conditional, executed or skipped |
| `Interpreter.StepAdvances` | src/lib/core/script.cpp:325-334 | A step consumes exactly one instruction, whatever the instruction does |
| `InterpreterRuns.VerifyScript` | src/lib/core/script.cpp:1602-1641 | Accepts if and only if the specification of both evaluations and of pay-to-script-hash does, which for scripts of pushes comes to the next rows |
| `VerifySoundness.VerifyScriptHash` | src/lib/core/script.cpp:1602-1641 | For an output that pays to a script hash: a signature script is accepted if and only if it is at most 10000 bytes of pushes of at most 520 bytes each, the last one hashes to the identifier, and that script run on the others leaves true on top |
| `VerifySoundness.VerifyOneOfMany` | src/lib/core/script.cpp:1602-1641 | If that script asks for one of many keys: accepted if and only if the hash is right, there are a dummy and a signature, and one of the keys verifies the signature for the script without it, in the encoding and with the hash type demanded |
| `VerifySoundness.RedeemDecides` | src/lib/core/script.cpp:876-950 | Run on any stack such a script fails, or takes dummy and signature and leaves whether the signature is accepted for one of its keys |
| `VerifySoundness.ScriptHashDecides` | src/lib/core/script.cpp:801-823 | OP_HASH160, a push and OP_EQUAL leave whether the element on top hashes to what is pushed |
| `VerifySoundness.EvalOfPushes` | src/lib/core/script.cpp:338-390 | A script of pushes leaves exactly what its instructions push, and fails if and only if a bound is passed or OP_RESERVED occurs |
| `VerifySoundness.FitsMeans` | src/lib/core/script.cpp:1155-1185 | A signature is accepted for a key if and only if the key has its form, the hash type is the one demanded, the encoding is strict where demanded, and the key verifies it without its last byte for the hash of that type |
| `VerifySoundness.CanonicalIsDer` | src/lib/core/script.cpp:252-303 | The canonical signatures are the DER sequences of two shortest non-negative integers, at most 66 bytes long together, and one of six hash types |
| `StandardScripts.VerifyPubKeyHash` | src/lib/core/script.cpp:573-581 | An output that pays to a public key hash is spent if and only if the signature script leaves a key with that hash above a signature that is accepted for it |
| `StandardScripts.MultisigDecides` | src/lib/core/script.cpp:876-950 | On dummy, signatures, their number, keys and their number, CHECKMULTISIG leaves whether the signatures are accepted for keys in the same order |
| `StandardScripts.TooManyKeys` | src/lib/core/script.cpp:882-900 | More than 20 keys, more than 201 operations or more signatures than keys make it fail |
| `StandardScripts.ConditionalRuns` | src/lib/core/script.cpp:394-430 | Of two branches of pushes exactly one is run, the first with IF on true and NOTIF on false |
| `StandardScripts.VerifyingForms` | src/lib/core/script.cpp:666-950 | The verifying forms of EQUAL, NUMEQUAL, CHECKSIG and CHECKMULTISIG are the instruction followed by VERIFY |
| `StandardScripts.SeparatorStarts` | src/lib/core/script.cpp:833-838 | Behind a code separator a script runs as if it began there, but for the operation counted |
| `StandardScripts.SetAside` | src/lib/core/script.cpp:456-472 | An element set aside on the altstack comes back above whatever has been pushed since |
| `StandardScripts.NopsCounted` | src/lib/core/script.cpp:336 | 201 counted operations are run, and no more |
| `StandardScripts.DisabledFails` | src/lib/core/script.cpp:340-355 | Disabled operations fail, in a branch that is not taken as well |
| `InterpreterRuns.ScriptHashNeedsInput` | src/lib/core/script.cpp:1602-1641 | A pay-to-script-hash output fails on an empty stack, so the stack copy asserted to be non-empty is non-empty |
| `InterpreterRuns.CheckMultisigMeaning` | src/lib/core/script.cpp:876-950 | CHECKMULTISIG pushes true if and only if the signatures are accepted (`FitsMeans`) in order for strictly increasing key positions; it fails exactly when its arguments are malformed |
| `MultisigMatching.GreedyIsComplete` | src/lib/core/script.cpp:915-936 | For every signature check, the greedy walk succeeds if and only if an order-preserving matching exists |
| `MultisigMatching.MatchSignatures` | src/lib/core/script.cpp:915-936 | The loop with its early exit decides the same |
| `InterpreterRuns.VerifyIgnoresSigs` | src/lib/core/script.cpp:1021-1096 | Verification gives the same result on transactions that differ only in signature scripts |
| `Signatures.SignatureHashIgnoresSigs` | src/lib/core/script.cpp:1021-1096 | The signature hash does not depend on any signature script |
| `SignedFields.MessageIsView` | src/lib/core/script.cpp:979-1072 | For a readable code: the message is the serialized transaction with every signature script empty and the code in place of the one to be made, and the type in four bytes; other types leave out the outputs or inputs that they do not sign |
| `SignedFields.HashIsOfView` | src/lib/core/script.cpp:1074-1096 | The signature hash is the hash of that message, and of the number one where the index is out of range |
| `SignedFields.SameMessage` | src/lib/core/script.cpp:979-1096 | Equal messages mean equal such transactions and equal types, and conversely |
| `SignedFields.WhatIsSigned` | src/lib/core/script.cpp:979-1096 | Two transactions have equal messages if and only if the codes agree without separators and exactly the fields that the type signs agree: for SIGHASH_ALL version, lock time, all outputs, prevouts and sequence numbers |
| `SignedFields.CodeIsStripped` | src/lib/core/script.cpp:1000-1018 | What is signed of a code are its other instructions in order, in as many bytes as announced |
| `SignedFields.NothingStripped` | src/lib/core/script.cpp:1000-1018 | A code without separators is signed as it is |
| `SigningFacts.SignSucceeds` | src/lib/core/script.cpp:1644-1678 | Signing an output that commits to a stored one-of-many script with a known first key succeeds, and writes the dummy, one signature and the script |
| `SigningFacts.SolveRedeem` | src/lib/core/script.cpp:1198-1317 | The template matcher recognizes the one-of-many script and returns its keys |
| `SigningFacts.EvalRedeem` | src/lib/core/script.cpp:307-971 | Evaluating the redeem script on the dummy and a fitting signature leaves exactly true |
| `SigningFacts.RedeemKeepsCode` | src/lib/core/script.cpp:907-912 | No canonical signature occurs in the redeem script, so removing signatures leaves it unchanged |
| `SigningFacts.VerifyParts` | src/lib/core/script.cpp:1602-1641 | The signature script written by signing verifies against the script hash |
| `Authorization.SignedVerifies` | src/lib/core/script.cpp:1644-1678 | Whatever script it signs, a successful SignSignature leaves an input that verifies and changes nothing else |
| `StackLaws.PickAndRoll` | src/lib/core/script.cpp:602-618 | PICK copies and ROLL moves the element at the given depth |
| `StackLaws.NumFits` | src/lib/core/script.cpp:36-42 | A number is a valid operand if and only if it lies between -2147483647 and 2147483647 |
| `StackLaws.StackPictures` | src/lib/core/script.cpp:474-651 | Thirteen instructions do what their pictures (x1 ... xn -- y1 ... ym) say and fail on fewer than n elements |
| `StackLaws.OnTop` | src/lib/core/script.cpp:545-823 | Elements are counted, measured, doubled when true, verified and hashed |
| `StackLaws.Arithmetic` | src/lib/core/script.cpp:724-779 | Two operands leave their sum, difference, minimum, maximum or the truth of the comparison; a number of more than 31 bits and a sign fails as an operand |
| `StackLaws.OneOperand` | src/lib/core/script.cpp:698-722 | One operand leaves its successor, predecessor, negation, magnitude or the truth of a test for zero, and fails if it is no operand |
| `StackLaws.Within` | src/lib/core/script.cpp:781-799 | WITHIN is true from the lower bound on and below the upper one |
| `StackLaws.FalseElements` | src/lib/core/script.cpp:44-57 | False are zeros of any length and zeros before a sign bit |
| `ScriptNumbers.NumRoundTrip` | src/lib/core/script.cpp:36-42 | Encoding and decoding of script numbers are inverse |
| `ScriptNumbers.NumTruth` | src/lib/core/script.cpp:44-57 | An encoded number is true exactly when it is not zero |
| `Formats.NumBytes` | src/lib/core/bignum.h:245-270 | The stack form of a number is its magnitude, least byte first, with the sign in the top bit of the last byte, and no longer than that takes |
| `ScriptLoops.SerializeForSignature` | src/lib/core/script.cpp:1000-1072 | The signature serializer writes the message of every hash type, which is that of `MessageIsView` and signs what `WhatIsSigned` says |
| `ScriptLoops.SerializeScriptCodeLoop` | src/lib/core/script.cpp:1000-1018 | Two passes over the script write its length and bytes without the code separators |
| `ScriptLoops.SignN` | src/lib/core/script.cpp:1335-1348 | Signs with the first keys that can sign, in order, until enough |
| `ScriptLoops.CompareWithTemplate` | src/lib/core/script.cpp:1231-1311 | One script against one template: the loop with its nested key loop returns the solutions of the specified match |
| `ScriptLoops.FindAndDeleteLoop` | src/lib/core/script.h:504-521 | Deletes every occurrence that starts at an instruction, also in a script that becomes matching by deletion |
| `ScriptLoops.ScriptCursor.GetOp2` | src/lib/core/script.h:435-486 | Reads one instruction and its immediate operand, or stops; never passes the end |
| `ScriptLoops.ScriptBuilder.AppendData` | src/lib/core/script.h:375-397 | Chooses the push by size and appends it |
| `ScriptLoops.ScriptBuilder.SetMultisig` | src/lib/core/script.cpp:1945-1953 | The script that requires n of the keys |
| `Script.GetOpPush` | src/lib/core/script.h:375-486 | Reading what was pushed gives the data back, for all four kinds of push |
| `Script.DecodeEncodeOP_N` | src/lib/core/script.h:489-502 | Small integers survive |
| `Script.KeysInMultisig` | src/lib/core/script.cpp:1945-1953 | The keys found in a multisignature script are its keys, in order |
| `Formats.PushForms` | src/lib/core/script.h:372-397 | The bytes of the four forms of a push |
| `Formats.MultisigBytes` | src/lib/core/script.cpp:1945-1953 | A script for m of n compressed keys: 50h + m, 21h and the key for each key, 50h + n and aeh |
| `Formats.NullDataBytes` | src/lib/bms/BlockchainInterface.cpp:221-234 | 40 bytes behind 6a 28 |
| `Transactions.TxRoundTrip` | src/lib/core/core.h:199-206 | Reading what was written gives the transaction and leaves the remaining bytes, for every valid transaction and remainder |
| `Transactions.TxBytesUnique` | src/lib/core/core.h:199-206 | No transaction's bytes are a prefix of another's |
| `Transactions.SizeIsLength` | src/lib/core/core.h:199-206 | GetSerializeSize, the basis of the fee, is the number of bytes written |
| `TransactionLayout.TxLayout` | src/lib/core/core.h:66-206 | The bytes by positions: version first and lock time last, little-endian; at the offset that the sizes of what stands before add up to, each input's hash, index, script length, script and sequence number, and each output's value, script length and script |
| `TransactionLayout.SizeLayout` | src/lib/core/serialize.h:163-203 | The exact bytes of the four forms of a size |
| `Transactions.CompactSizeRoundTrip` | src/lib/core/serialize.h:163-240 | Sizes up to MAX_SIZE survive, with non-canonical forms refused |
| `Streams.DataStream.Read` | src/lib/core/serialize.h:1010-1031 | Returns the next bytes or fails leaving them; the buffer is cleared when it is used up |
| `Streams.DataStream.Write` | src/lib/core/serialize.h:1053-1059 | Appends the bytes |
| `Streams.DataStream.WriteCompactSize` | src/lib/core/serialize.h:171-203 | Appends the encoded size |
| `Streams.DataStream.ReadCompactSize` | src/lib/core/serialize.h:205-240 | Reads a size as specified, refusing the non-canonical and the too large |
| `Streams.DataStream.ReadBytesVector` | src/lib/core/serialize.h:529-542 | Reading in blocks gives the same bytes as reading at once |
| `Streams.Serialize` | src/lib/core/core.h:199-206 | Writes exactly the bytes of the transaction, which stand where `TxLayout` says |
| `Streams.Unserialize` | src/lib/core/core.h:199-206 | Reads exactly what the specification reads, or fails where it fails: a transaction with the layout of `TxLayout` is found in the bytes that begin with it |
| `Streams.HexStr` | src/lib/core/util.h:275-291 | Two lower-case digits for every byte |
| `Formats.HexDigits` | src/lib/core/util.h:275-291 | The digits are those of high and low half in 0123456789abcdef |
| `Formats.HexValues` | src/lib/core/util.cpp:436-455 | Digits of both cases have their values, and no other character is a digit |
| `Streams.ParseHex` | src/lib/core/util.cpp:436-455 | Bytes of the digit pairs up to the first character that is none, spaces skipped |
| `Streams.HexRoundTrip` | src/lib/bms/Utilities.cpp:374-399 | Parsing the digits gives the bytes back |
| `Streams.TransactionToHexString` | src/lib/bms/Utilities.cpp:374-383 | The digits of the bytes of the transaction |
| `Streams.HexStringToTransaction` | src/lib/bms/Utilities.cpp:390-399 | The transaction the parsed bytes begin with |
| `Streams.HexTransactionRoundTrip` | src/lib/bms/Utilities.cpp:374-399 | A transaction survives the way through hexadecimal text |
| `VarInts.VarIntBijection` | src/lib/core/serialize.h:242-307 | Reading b gives n and the rest if and only if b is the encoding of n and the rest: exactly one encoding for each number |
| `Formats.VarIntDigits` | src/lib/core/serialize.h:242-262 | The encoding is base 128, most significant byte first, with a mark in all bytes but the last and one more counted for each of these |
| `Formats.TableDiffers` | src/lib/core/serialize.h:257-262 | The comment gives 16511 three bytes and 65535 the bytes 82 fd 7f; the code writes two, and 82 fe 7f |
| `VarInts.WriteVarInt` | src/lib/core/serialize.h:277-291 | Writes the encoding, and never overruns its buffer of (width + 6) / 7 bytes |
| `VarInts.ReadVarInt` | src/lib/core/serialize.h:293-307 | Reads the encoded number modulo 2^64 |
| `VarInts.GetSizeOfVarInt` | src/lib/core/serialize.h:264-275 | The exact length of the encoding |
| `VarInts.AmountBijection` | src/lib/core/core.cpp:170-213 | Compression and decompression of amounts are inverse in both directions on all naturals |
| `Formats.AmountWithZeros` | src/lib/core/core.cpp:160-187 | An amount that is n times ten to the k, with k below nine and the last digit d of n not zero: 1 + 10 (9 (n / 10) + d - 1) + k; with k nine: 10 n |
| `VarInts.CompressAmount` | src/lib/core/core.cpp:170-187 | Computes the compressed amount modulo 2^64, exactly for every valid amount of money |
| `VarInts.DecompressAmount` | src/lib/core/core.cpp:189-213 | Computes the decompressed amount modulo 2^64, exactly where it fits |
| `VarInts.MoneyFits` | src/lib/core/core.cpp:170-187 | No valid amount of money overflows |
| `BufferedFile.BufferedFile.Fill` | src/lib/core/serialize.h:1246-1262 | Keeps the buffer consistent with the file; stops without failure only when there is no room |
| `BufferedFile.BufferedFile.Read` | src/lib/core/serialize.h:1284-1304 | Over every run, returns exactly the source bytes at the position; with a reliable file it succeeds whenever the bytes exist and the two limits allow |
| `BufferedFile.BufferedFile.SetPos` | src/lib/core/serialize.h:1312-1323 | Succeeds exactly when the position can be rewound to, and otherwise moves to the nearest position |
| `BufferedFile.SetPosStaysInside` | src/lib/core/serialize.h:1312-1323 | The new position lies within the guaranteed window if and only if the sum in the guard does not wrap (or wraps harmlessly) |
| `BufferedFile.SetPosCanEscape` | src/lib/core/serialize.h:1312-1323 | A position near 2^64 wraps the guard and leaves the window |
| `BufferedFile.BufferedFile.SetLimit` | src/lib/core/serialize.h:1340-1345 | Sets the limit unless it is behind the position |
| `BufferedFile.BufferedFile.FindByte` | src/lib/core/serialize.h:1355-1363 | Stops at the first occurrence of the byte; with all of the buffer kept for rewinding it finds the byte if and only if some round of the loop looks at it |
| `BufferedFile.BufferedFile.OnlyZeros` | src/lib/core/serialize.h:1355-1363 | Every such round looks at a zero, so that no other byte is ever found |
| `Merkle.Block.BuildMerkleTree` | src/lib/core/core.cpp:220-236 | Stores all levels one after the other and returns the root |
| `Merkle.Block.GetMerkleBranch` | src/lib/core/core.cpp:238-253 | Reads the siblings on the way up from the stored levels; they are the branch whenever these are those of the transactions, and reading fails behind their end |
| `Merkle.ProveInclusion` | src/lib/core/core.cpp:220-268 | Checking the branch of any transaction in range gives the root |
| `Merkle.BranchLeadsToRoot` | src/lib/core/core.cpp:238-268 | The same on the specifications, odd levels included |
| `Merkle.RootOfHalves` | src/lib/core/core.cpp:220-268 | Over a power of two the root is the hash of the left half's root followed by the right half's |
| `Merkle.OnlyTheLeafPasses` | src/lib/core/core.cpp:255-268 | Without a hash collision among the pairs involved, only that leaf and only that branch pass |
| `Merkle.RootDeterminesLeaves` | src/lib/core/core.cpp:220-236 | Without a collision, equal roots of equally many leaves mean equal leaves |
| `Merkle.SameRoot` | src/lib/core/core.cpp:220-236 | Without a collision, two trees have the same root if and only if the level of the higher one at the height of the lower one and the leaves of the lower one are the same after duplication at every odd level |
| `Merkle.SameRootAtHeight` | src/lib/core/core.cpp:220-236 | For trees of the same height it is the leaves of both |
| `Merkle.LeafAndParent` | src/lib/core/core.cpp:220-236 | Two leaves, and the single leaf that is their parent, share a root |
| `Merkle.SixAndEight` | src/lib/core/core.cpp:220-236 | Six leaves, and the same six followed by the last two again, share a root |
| `Merkle.RepeatedLastLeaf` | src/lib/core/core.cpp:220-236 | Repeating the last of an odd number of leaves keeps the root |
| `PageLocks.LockedPageManager.LockRange` | src/lib/core/allocators.h:39-60 | Every page's count goes up by one exactly where the range touches it, and the locked pages are exactly those with a positive count; where no number of rounds brings the address past the last page of the range, the loop does not end |
| `PageLocks.LoopEnds` | src/lib/core/allocators.h:46-59 | Some number of rounds brings the address past the last page of the range if and only if that is not the last page of the address space |
| `PageLocks.LastPageIsNotPassed` | src/lib/core/allocators.h:46-59 | In 64 bits the page address never passes the last page |
| `PageLocks.LastByteNeverEnds` | src/lib/core/allocators.h:39-60 | For the last byte of the address space the address stays at or below its page after every number of rounds, for any page size |
| `PageLocks.LockedPageManager.UnlockRange` | src/lib/core/allocators.h:63-84 | Undoes the count of any outstanding range, in any order |
| `PageLocks.LockedPageManager.GetLockedPageCount` | src/lib/core/allocators.h:87-92 | The number of locked pages; zero, with an empty table, once every range is released |
| `PageLocks.TouchedPages` | src/lib/core/allocators.h:39-60 | The pages between the first and last page address are exactly those the range touches |
| `BaseUints.BaseUint.ShiftLeft` | src/lib/core/uint256.h:113-128 | Multiplies by 2^shift modulo 2^BITS, for every width and shift |
| `BaseUints.BaseUint.ShiftRight` | src/lib/core/uint256.h:130-145 | Divides by 2^shift |
| `BaseUints.BaseUint.Add` | src/lib/core/uint256.h:147-157 | The sum modulo 2^BITS, also when the operand is the same object |
| `BaseUints.BaseUint.Subtract` | src/lib/core/uint256.h:159-163 | The difference modulo 2^BITS |
| `BaseUints.BaseUint.Negated` | src/lib/core/uint256.h:49-56 | The additive inverse modulo 2^BITS |
| `BaseUints.BaseUint.Increment` | src/lib/core/uint256.h:182-189 | Plus one modulo 2^BITS, the carry loop stopping early |
| `BaseUints.BaseUint.Decrement` | src/lib/core/uint256.h:199-206 | Minus one modulo 2^BITS |
| `BaseUints.BaseUint.Less` | src/lib/core/uint256.h:217-227 | Numeric order |
| `BaseUints.BaseUint.LessOrEqual` | src/lib/core/uint256.h:229-239 | Numeric order |
| `BaseUints.BaseUint.Equals` | src/lib/core/uint256.h:265-271 | Equal limbs if and only if equal values |
| `BaseUints.ShiftUpIsProduct` | src/lib/core/uint256.h:113-128 | Limbs that combine two shifted neighbours have the product as value |
| `BaseUints.ShiftDownIsQuotient` | src/lib/core/uint256.h:130-145 | And the quotient, for the shift down |
| `BaseUints.AddIsSum` | src/lib/core/uint256.h:147-157 | The ripple of carries is addition |
| `BaseUints.SubIsDifference` | src/lib/core/uint256.h:159-163 | Adding the two's complement is subtraction |
| `JsonValues.FastWriter.WriteValue` | src/lib/api/jsonrpc/json/json_writer.cpp:207-263 | Appends exactly the text of the value, for every value of the C++ types, with what is printed for its doubles |
| `JsonValues.ShownWithoutDoubles` | src/lib/api/jsonrpc/json/json_writer.cpp:207-263 | Without doubles that is the text of the value itself |
| `JsonValues.FastWriter.Write` | src/lib/api/jsonrpc/json/json_writer.cpp:197-205 | The text of the value and a newline, whatever was written before |
| `JsonValues.ValueToQuotedString` | src/lib/api/jsonrpc/json/json_writer.cpp:111-172 | The escaped string in quotes, with or without the shortcut for plain strings; the escapes are those of the next rows |
| `JsonEscapes.LetterWritten` | src/lib/api/jsonrpc/json/json_writer.cpp:111-172 | Wherever it stands, a character with one of seven codes of RFC 8259 is written as a backslash and its letter |
| `JsonEscapes.OthersWritten` | src/lib/api/jsonrpc/json/json_writer.cpp:111-172 | Other control characters are written as u and four digits of their number, and all others as they are |
| `JsonTexts.NamesWritten` | src/lib/api/jsonrpc/json/json_writer.cpp:207-263 | null, true and false, letter by letter |
| `JsonTexts.DigitsWritten` | src/lib/api/jsonrpc/json/json_writer.cpp:30-40 | The digits of a number write it in base ten without leading zeros |
| `JsonTexts.NumbersWritten` | src/lib/api/jsonrpc/json/json_writer.cpp:42-55 | A minus sign in front of a negative number |
| `JsonTexts.ArrayWritten` | src/lib/api/jsonrpc/json/json_writer.cpp:207-263 | The items between square brackets, with commas between them |
| `JsonTexts.ObjectWritten` | src/lib/api/jsonrpc/json/json_writer.cpp:207-263 | The members between curly brackets, with commas between them, each a quoted name, a colon and a value |
| `JsonValues.UintToString` | src/lib/api/jsonrpc/json/json_writer.cpp:30-40 | The decimal digits, in a buffer of ten |
| `JsonValues.IntToString` | src/lib/api/jsonrpc/json/json_writer.cpp:42-55 | Sign and digits of every 32-bit integer |
| `JsonReader.ParseDocument` | src/lib/api/jsonrpc/json/json_reader.cpp:151-192 | Parses exactly the documents the grammar functions parse, to the same value |
| `JsonReader.Reader.ReadOneValue` | src/lib/api/jsonrpc/json/json_reader.cpp:194-243 | One value, leaving the cursor after it |
| `JsonReader.Reader.NextRawToken` | src/lib/api/jsonrpc/json/json_reader.cpp:273-345 | One token and its text |
| `JsonReader.Reader.SkipCommentTokens` | src/lib/api/jsonrpc/json/json_reader.cpp:245-260 | The next token that is no comment |
| `JsonReader.Reader.ReadMembers` | src/lib/api/jsonrpc/json/json_reader.cpp:479-535 | An object, later members of the same name replacing earlier ones, names ending at an escaped NUL |
| `JsonRoundTrip.CutBehind` | src/lib/api/jsonrpc/json/json_value.cpp:1081-1085 | What stands behind a NUL is lost |
| `JsonReader.Reader.ReadElements` | src/lib/api/jsonrpc/json/json_reader.cpp:538-578 | An array, with what the source accepts between items |
| `JsonReader.DecodeString` | src/lib/api/jsonrpc/json/json_reader.cpp:657-701 | Undoes the escapes or fails, as the next rows say |
| `JsonEscapes.LetterRead` | src/lib/api/jsonrpc/json/json_reader.cpp:657-701 | Each of the eight letters of RFC 8259 behind a backslash is read as its code |
| `JsonEscapes.OtherLetter` | src/lib/api/jsonrpc/json/json_reader.cpp:657-701 | No other letter but the u is read |
| `JsonEscapes.CodePointRead` | src/lib/api/jsonrpc/json/json_reader.cpp:704-756 | u and four digits are read as the UTF-8 bytes of their number, unless it is a high surrogate |
| `JsonEscapes.PairRead` | src/lib/api/jsonrpc/json/json_reader.cpp:704-756 | A high and a low surrogate are read as the UTF-8 bytes of the number that they stand for |
| `JsonEscapes.LoneHighSurrogate` | src/lib/api/jsonrpc/json/json_reader.cpp:704-756 | A high surrogate without a second number fails |
| `JsonEscapes.SpelledByBytes` | src/lib/api/jsonrpc/json/json_reader.cpp:69-103 | Bytes decoded by the definition of UTF-8 are the number that was encoded, for all four lengths |
| `JsonTexts.SpacesRead` | src/lib/api/jsonrpc/json/json_reader.cpp:349-359 | Space, tab, line feed and carriage return are passed over, and nothing else is |
| `JsonTexts.NameOrder` | src/lib/api/jsonrpc/json/json_value.cpp:218-223 | Names are ordered as in a dictionary |
| `JsonReader.DecodeNumberToken` | src/lib/api/jsonrpc/json/json_reader.cpp:581-616 | An integer, or a double when the digits exceed the source's threshold |
| `JsonRoundTrip.DocumentRoundTrip` | src/lib/api/jsonrpc/json/json_writer.cpp:197-263 | Parsing the written document always succeeds and gives back the value if and only if its numbers survive; otherwise exactly the surviving image |
| `JsonRoundTrip.ValueRoundTrip` | src/lib/api/jsonrpc/json/json_reader.cpp:194-243 | The same for a value inside any document, whatever follows |
| `JsonRoundTrip.StringRoundTrip` | src/lib/api/jsonrpc/json/json_reader.cpp:646-756 | Every string of the supported characters is read as one token and decoded to itself |
| `JsonRoundTrip.NumberDecoded` | src/lib/api/jsonrpc/json/json_reader.cpp:581-616 | What becomes of every integer that is written |
| `JsonRoundTrip.NumberThatChanges` | src/lib/api/jsonrpc/json/json_reader.cpp:590-612 | -2147483640 is read as a double, and 7 written as an unsigned number as a signed one |
| `JsonRoundTrip.SeparatorsMatter` | src/lib/api/jsonrpc/json/json_reader.cpp:547-577 | For every text, the items read are those of the grammar with commas unless some token behind an item is neither a comma nor the closing bracket, which the grammar refuses; the two differ if and only if the reader goes on to succeed behind such a token |
| `JsonRoundTrip.ColonSeparatesItems` | src/lib/api/jsonrpc/json/json_reader.cpp:556-574 | [1:2] is read as two items |
| `JsonRoundTrip.MemberSeparatorsMatter` | src/lib/api/jsonrpc/json/json_reader.cpp:479-535 | For every text, the members read are those of the grammar with commas unless a token behind a member and a comment is neither a comma nor the closing brace, or the brace stands behind a comma and a member without a name; the two differ if and only if the reader goes on to succeed in such a case |
| `JsonRoundTrip.CommentAndColon` | src/lib/api/jsonrpc/json/json_reader.cpp:514-528 | A comment and a colon separate two members |
| `JsonRoundTrip.TrailingComma` | src/lib/api/jsonrpc/json/json_reader.cpp:491-493 | A brace behind a comma and a member without a name ends the object |

## Left out

- ChainBuilding.EmbedData: reports failure where the source's unsigned budget would wrap, nothing would be left to split or a payload has no key. `Covers` is a budget that always suffices, not the least one; which payloads a run cuts out depends on the lengths of signatures, so that `CompletesExactly` speaks of the run.
- Chains.ExtractData: specified for chains that hold data in every carrier; on others the source reads out of range or throws.
- DataInterface.EncodeDataInPubkey: the loop over random draws becomes the choice of some valid draw, and None where the loop does not end.
- Keypairs.GenerateKeypairMap: key generation is a supply of keys in which every suffix occurs before a bound; the random source never promises that.
- ScriptHashes.Session.AddCScript: a later script may displace an earlier one with the same hash; `Messages.SendMessage` states what follows when none do.
- Messages.SendMessage: selecting inputs and the signing of the first transaction by the wallet over RPC are parameters.
- Authorization.AuthorizeTransactions: the wallet's answer is a parameter; its decoding from RPC text is not modelled.
- VarInts.ReadVarInt: the result wraps at 64 bits as the source's does; narrower types are not modelled.
- VarInts.AmountBijection: stated on unbounded naturals; `CompressAmount` and `DecompressAmount` say where 64 bits agree.
- BufferedFile.BufferedFile.Read: the stream failures thrown by `Fill` are error results; `Seek`, which does not refill the buffer, is not modelled.
- PageLocks.LockedPageManager.LockRange: the endless loop is a result that says so; the mutex and the counter's 32 bits are not modelled.
- Huffman.BuildTree: frequencies are unbounded integers, and ties in the priority queue are broken arbitrarily.
- Compositions.IntegerToComposition: needs the total plus the parts to stay below 2^64, which every amount of money does.
- DataInterface.EmbeddableBitsInValues: the quotient of logarithms is the integer part of the base-two logarithm; rounding errors of doubles are not modelled.
- TransactionShapes.FeeOfShape: the fee is the rate for every thousand bytes begun, in integers instead of doubles.
- InterpreterRuns.EvalScript: the interpreter's variables are the fields of one state value, replaced as a whole at each instruction, so aliasing of the caller's stack is not modelled; big numbers are integers.
- InterpreterRuns.VerifyScript: the signature cache is left out, as it changes no result when only valid signatures are cached.
- SignedFields.MessageIsView: for script codes all of whose instructions can be read; of others the source writes the bytes up to the place where reading stops, behind a size that counts the whole script.
- VerifySoundness.VerifyOneOfMany: for redeem scripts of up to twelve compressed keys, the only ones that the program makes; `StandardScripts.MultisigDecides` is about any numbers of keys and signatures.
- StandardScripts.ConditionalRuns: for branches that only push.
- JsonReader.ParseDocument: collected comments, error messages and error recovery are left out, and values are returned instead of stored through the node stack; doubles keep their text, and sscanf is a predicate.
- JsonRoundTrip.DocumentRoundTrip: doubles are excluded.
- JsonValues.FastWriter.WriteValue: the text of a double is a function of the text it was read from, as sprintf is not modelled; the negation of the least integer is taken to wrap, as it does in two's complement.
- TransactionShapes.CapacityMonotone: asks for at least 768 bits for each script hash, without which it is false (`NotTheFewest`).
- TransactionShapes.FewestScriptHashes: the same; `FewestExactly` has the exact condition for every configuration.
- BufferedFile.BufferedFile.FindByte: the endless search in a buffer kept for rewinding is reported as failure.
- JsonRoundTrip.SeparatorsMatter: about the items of one array, as `MemberSeparatorsMatter` is about the members of one object; what is read inside an item is the reader's own.
- Transactions.TxRoundTrip: valid transactions are those whose fields fit their C++ types and whose vectors have at most MAX_SIZE elements.
- Merkle.OnlyTheLeafPasses: for an index in range and a branch of full length, and for pairs of hashes that do not collide.
- Hash functions, ECDSA, BIP 32 derivation, base58 and OpenSSL numbers.
- The pay-to-pubkey and pay-to-pubkey-hash branches of signing are modelled; signing several inputs in parallel and combining partial signatures are not.
- Seeking backwards, inserting and erasing in CDataStream, and its stream-state flags.
- The 64-bit overloads, bitwise operators and hexadecimal form of base_uint.
- MinimumBudget, whose dry run with a budget of zero relies on wrap-around.
- Loading and saving of the Huffman codes, key map and configuration, and the text user interface.
- SelectInputs, SendTransactions and ReadTransactions, the wallet and the JSON-RPC client.
- The styled JSON writers.
