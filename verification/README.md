# The wallet core, modelled and verified

The native wallet engine of a mobile Bitcoin-style wallet keeps a chain of block headers it gets from peers, decides
from partial Merkle trees which of its transactions are confirmed, keeps the books on them and builds payments. It
brings its own hash set, authenticator, cipher and address codecs. This project models that engine in Dafny and proves
what it is meant to guarantee. Code that works step by step is a method or a class with the same loops and fields,
proved against a specification on values; the guarantees are lemmas about the specification and invariants that every
method keeps.

Hashing, curve arithmetic and key derivation are uninterpreted. Time, the height a peer claims, random numbers and the
order of equally high transactions are parameters. Callbacks are entries of a log.

## What is proved, by module

**HashSet.** The linear-probed table stands for a map from keys to items. Reachability (no gap between an item's home
bucket and its place) and a load below two thirds are kept by everything, so every probe ends and finds exactly what is
there. Removal re-adds the rest of its cluster without growing the table or touching what has not been processed;
intersection deletes from the table it scans and still keeps exactly the common items.

**MerkleBlock, Difficulty, BlockValidity.** The two recursive walks over flags and hashes fold and list one parsed
tree. On arbitrary input a good end of the root walk gives every reported transaction a full-depth branch to the root.
The encoding that BIP 37 describes is decoded exactly, odd rows included, if no hash is zero and no two distinct
siblings are equal. The validity test drops the mark of a bad end, and an example for every hash function shows that
the right root alone does not make up for it. Retargeting agrees with the rule in unbounded integers exactly when
nothing is lost from the target, which holds for every normal one; a target of size three shows that the comment
claiming this in the code does not hold for small ones. The rule is stated in numbers, for less than three and a half
days, up to eight weeks, and more. The proof-of-work test compares the numbers it should.

**Poly1305, Poly1305Example.** Five limbs of 26 bits with lazy carries compute the tag of section 2.5 of RFC 7539, for
every key, message and split at 16-byte boundaries. Every 32- and 64-bit intermediate is shown to stay in range. Which
key bits clamping clears is stated, and the example of the standard comes out.

**Ledger, Wallet, Descendants, Transaction, Serialisation.** Recomputing the balance is a fold over the list of
transactions. At every step the unspent outputs are known exactly, each occurs once, and balance, received and sent
agree. It is told from the transactions alone which are invalid, which are pending and what is spent; a transaction is
listed exactly if it pays the wallet or spends from it; the size that fees depend on is the length of the transaction
in bytes. With everything confirmed the order of the list does not matter. Heights are often recorded without
recomputing; it is stated exactly when the books are then still what recomputing gives. Insertion, height updates and
roll-back keep the list sorted by height; removal takes exactly a transaction and what depends on it, diamonds
included.

**Chain, Verdicts, Reorg, PeerManager.** A relayed block is ignored, kept as an orphan, refused, or extends, repeats,
forks or reorganises the chain; which of these, and the state afterwards, is a function that the class is proved to
compute, waiting orphans included. Over every run the last block stays stored and its height never falls, and each
block that came to be stored contradicts no checkpoint and had the target that the protocol asks for. A block that
obeys the rules always goes where it belongs, one that does not is never stored. Pruning never removes the last block,
nor a block that the difficulty walk of a block at least as high as the pruning one needs. A lower transition block
still finds the one before it exactly if no block between the two is on the other chain as well; a fork is given whose
transition block is refused after the pruning. A reorganisation walks back to the highest stored block that both
chains share, if there is one, and then leaves every wallet transaction with the height its new chain gives it. Two
places of the code dereference a null block when the stored part of a chain runs out (`BRPeerManager.c` lines 1262 and
1300). The model ends in an outcome `Crashed` there; it is proved when exactly that happens, and a state and a block
that lead there are given for each.

**InStep, OutOfStep.** Wallet and chain together, over every run of relayed blocks and changes of the wallet's list.
Each listed transaction is unconfirmed, as it was at the start, or confirmed at a height where the chain of the last
block has a block that a relayed copy showed to match it, exactly as long as no reorganisation finds the old chain run
out of stored blocks above a transaction that the new chain does not confirm. That can happen: freed blocks of a fork
may be relayed again, so that its stored part goes down further than that of the main chain. A run from a new manager,
of 10080 relayed blocks, is given that ends so.

**CoinSelection, GapLimit.** Inputs equal outputs, change and fee; the fee covers the final size; change is above the
minimum; the largest amount offered can always be paid. Address generation ends and fills the gap.

**Radix, Base58, Bech32, Bech32Standard.** Encoding and decoding undo each other, in buffers that always suffice. A
Bech32 address with one data character replaced never decodes, because the checksum step is linear and injective on 30
bits. When exactly an address fits the encoder's buffer is stated, with a long one that does not. The checksum step is
the multiplication that BIP 173 describes, and an address of the standard comes out.

**SBox, Aes, AesExample.** Encryption and decryption compute the cipher and inverse cipher of FIPS 197 with the key
schedule run in place, forwards and backwards, and each undoes the other for every key and block. The substitution
table holds inverses in the field of 256 elements put through the affine map of the standard, and the standard's
example comes out.

**Peer.** A state machine over messages, the clock and the requests of the program, which its callbacks make in the
middle of handling a message or of disconnecting. Every merkleblock handed on had each matched transaction known or
received, and each that had is handed on before anything else happens to a block; by the end of a connection every
callback has fired exactly once, those of pings in order. One case is excepted: pings that the callback of the mempool
request asks for when it fails at the very end stay unanswered.

**Options, Words.** Optional values, and arithmetic on words and little-endian bytes.

## Model

| member | source | states |
|---|---|---|
| `HashSet.BRSet.constructor` | app/src/main/jni/etzwallet-core/BRSet.c:49-69 | A new set is empty, and its table has the size listed after the smallest one that is at least the capacity |
| `HashSet.BRSet.Get` | app/src/main/jni/etzwallet-core/BRSet.c:193-208 | The probe always ends, and finds exactly the item stored under an equal key |
| `HashSet.BRSet.Add` | app/src/main/jni/etzwallet-core/BRSet.c:99-117 | The contents become the old map with the item under its key; the equal item it replaces is returned; a set that need not grow keeps its table and changes one bucket |
| `HashSet.BRSet.Grow` | app/src/main/jni/etzwallet-core/BRSet.c:86-96 | Moving to a larger table keeps the contents |
| `HashSet.BRSet.Remove` | app/src/main/jni/etzwallet-core/BRSet.c:120-150 | Exactly the item with the key goes; re-adding the rest of its cluster neither grows the table nor loses or moves anything out of reach |
| `HashSet.BRSet.PutBack` | app/src/main/jni/etzwallet-core/BRSet.c:140-146 | One step of the clean-up: lifting an item out and adding it again keeps the contents and the table, and moves the item only towards its home bucket |
| `HashSet.BRSet.Clear` | app/src/main/jni/etzwallet-core/BRSet.c:153-159 | The set is empty afterwards and its table keeps its size |
| `HashSet.BRSet.Intersects` | app/src/main/jni/etzwallet-core/BRSet.c:176-190 | True exactly when the two sets share a key |
| `HashSet.BRSet.Iterate` | app/src/main/jni/etzwallet-core/BRSet.c:212-233 | The item after the given one in table order; none after the last |
| `HashSet.NextOfList` | app/src/main/jni/etzwallet-core/BRSet.c:212-233 | What follows one item of the list is the next item of the list |
| `HashSet.BRSet.Union` | app/src/main/jni/etzwallet-core/BRSet.c:269-281 | The contents become the union, the other set's items winning |
| `HashSet.BRSet.Minus` | app/src/main/jni/etzwallet-core/BRSet.c:284-296 | The contents become the difference, in the same table |
| `HashSet.BRSet.Intersect` | app/src/main/jni/etzwallet-core/BRSet.c:299-315 | Deleting while scanning leaves exactly the common items |
| `HashSet.SlotDecides` | app/src/main/jni/etzwallet-core/BRSet.c:193-208 | Where a probe stops decides whether the key is in the set: reachability without gaps is what makes lookup correct |
| `HashSet.EmptyBucketExists` | app/src/main/jni/etzwallet-core/BRSet.c:99-117 | Below the load limit an empty bucket always exists, so every probe ends |
| `HashSet.StoreKeepsReached` | app/src/main/jni/etzwallet-core/BRSet.c:99-117 | Storing an item where its probe stops keeps every item reachable |
| `HashSet.MendingStarts` | app/src/main/jni/etzwallet-core/BRSet.c:134-138 | Emptying one bucket breaks reachability only across that bucket |
| `HashSet.MendingSteps` | app/src/main/jni/etzwallet-core/BRSet.c:140-146 | Re-adding the item of the next bucket of the cluster moves the break one bucket on |
| `HashSet.MendingEnds` | app/src/main/jni/etzwallet-core/BRSet.c:140-146 | At the first empty bucket nothing is broken any more |
| `HashSet.CleaningSteps` | app/src/main/jni/etzwallet-core/BRSet.c:140-146 | No step of the clean-up touches a bucket that has not been processed |
| `HashSet.ScanStays` | app/src/main/jni/etzwallet-core/BRSet.c:299-315 | A removal during the scan moves no unvisited item below the scan index, also when the cluster wraps past the end of the table |
| `HashSet.ScanEnds` | app/src/main/jni/etzwallet-core/BRSet.c:299-315 | A finished scan has kept exactly the items found in the other set |
| `HashSet.IterationListsAll` | app/src/main/jni/etzwallet-core/BRSet.c:212-233 | The results of iterating from the start until there is no further item are all items of the set, and each once |
| `HashSet.TableSizesAscend` | app/src/main/jni/etzwallet-core/BRSet.c:32-37 | The table sizes grow by at least what the load limit needs |
| `MerkleBlock.CeilLog2Loop` | app/src/main/jni/etzwallet-core/BRMerkleBlock.c:37-43 | The bit tricks give the least r with 2 to the r at least x |
| `MerkleBlock.CeilLog2IsLeast` | app/src/main/jni/etzwallet-core/BRMerkleBlock.c:37-43 | The reference definition of the tree depth is the least exponent |
| `MerkleBlock.Walk.RootR` | app/src/main/jni/etzwallet-core/BRMerkleBlock.c:241-264 | The recursive root walk returns the hash and the positions of the walk on values |
| `MerkleBlock.Walk.TxHashesR` | app/src/main/jni/etzwallet-core/BRMerkleBlock.c:185-209 | The recursive walk for transactions appends what the walk on values lists |
| `MerkleBlock.RootWalkFolds` | app/src/main/jni/etzwallet-core/BRMerkleBlock.c:241-264 | The root walk folds the parsed tree, and takes the exit for equal or missing branches if and only if some node of the tree is unsound |
| `MerkleBlock.TxWalkLists` | app/src/main/jni/etzwallet-core/BRMerkleBlock.c:185-209 | The walk for transactions visits the same tree and lists its matched leaves in order |
| `MerkleBlock.MatchedHaveBranches` | app/src/main/jni/etzwallet-core/BRMerkleBlock.c:185-264 | Each matched leaf of a sound tree has a branch of hashes from it to the root of the tree |
| `MerkleBlock.DecodingIsSound` | app/src/main/jni/etzwallet-core/BRMerkleBlock.c:185-264 | On arbitrary flags and hashes: if the root walk ends well with the expected root, every reported transaction has a Merkle branch of the full depth to it |
| `MerkleBlock.WalksAgreeIff` | app/src/main/jni/etzwallet-core/BRMerkleBlock.c:185-264 | The two walks end at the same place if and only if the root walk has not taken its exit |
| `MerkleBlock.RootIsNotEnough` | app/src/main/jni/etzwallet-core/BRMerkleBlock.c:254-282 | For every hash function whose two sides of the tree differ and whose outputs are not zero: a tree whose root walk takes the exit and still finds the true root, while any hash at will is reported |
| `MerkleBlock.ReportedWithoutBranch` | app/src/main/jni/etzwallet-core/BRMerkleBlock.c:254-282 | With a simple function for the hash, what is reported there has no branch to the root at all: what the validity test looks at does not by itself give soundness |
| `MerkleBlock.NodeHashIsMerkleRoot` | app/src/main/jni/etzwallet-core/BRMerkleBlock.c:45-51 | The hash of a subtree by halves is the Merkle root by rows, odd rows repeating their last hash |
| `MerkleBlock.PackedFlags` | app/src/main/jni/etzwallet-core/BRMerkleBlock.c:190-193 | Bits packed into bytes are read back by the flag test |
| `MerkleBlock.ParseDecodes` | app/src/main/jni/etzwallet-core/BRMerkleBlock.c:185-264 | Parsing the encoding of a subtree gives back its hash and its matched leaves, although the decoder never tests for odd rows |
| `MerkleBlock.DecodingIsComplete` | app/src/main/jni/etzwallet-core/BRMerkleBlock.c:52-59 | For any transactions and any matched ones, the encoding of BIP 37 makes the walks return the true root and exactly the matched transactions in order, using up all hashes |
| `Difficulty.ComputeTarget` | app/src/main/jni/etzwallet-core/BRMerkleBlock.c:337-358 | The target computed in 64-bit words is the specified next target, nothing overflowing; where nothing is lost it is the compact form of min(0xffff * 256^26, target * t / 1209600), t being the time elapsed, but at least 302400 and at most 4838400 |
| `Difficulty.VerifyDifficulty` | app/src/main/jni/etzwallet-core/BRMerkleBlock.c:327-364 | A block is accepted exactly when it links to its parent and has the parent's target, or at heights that 2016 divides the next one; for times elapsed below 302400, up to 4838400 and above it is said which: with the rule in unbounded integers the accepted one is the right one if and only if nothing is lost |
| `Difficulty.RetargetIsExactIff` | app/src/main/jni/etzwallet-core/BRMerkleBlock.c:345-356 | For every previous target and timestamps less than 2^31 apart: the next target is the compact form of min(limit, floor(target * timespan / two weeks)) if and only if nothing is lost, a condition on the mantissa, the size and the timespan |
| `Difficulty.NextTargetByRule` | app/src/main/jni/etzwallet-core/BRMerkleBlock.c:345-356 | The code's next target is that of the rule for the time that counts if and only if nothing is lost |
| `Difficulty.FarTimes` | app/src/main/jni/etzwallet-core/BRMerkleBlock.c:341-346 | Times 2^31 or more apart wrap around: one much later counts as three and a half days |
| `Difficulty.SixWeeks` | app/src/main/jni/etzwallet-core/BRMerkleBlock.c:345-356 | After six weeks the target 0x1b0404cb becomes 0x1b0c0e61 |
| `Difficulty.CompactShape` | app/src/main/jni/etzwallet-core/BRMerkleBlock.c:337-339 | A compact form has a mantissa of at least two bytes with its highest bit clear and stands for no more than the number |
| `Difficulty.NormalIsLossless` | app/src/main/jni/etzwallet-core/BRMerkleBlock.c:345-356 | Above size three nothing is lost from a mantissa of at least two bytes |
| `Difficulty.SmallTargetsAreInexact` | app/src/main/jni/etzwallet-core/BRMerkleBlock.c:345-356 | A previous target of size three after which the block with the target of the rule is refused and one with another target accepted: the exactness claimed in the code's comment needs a larger size |
| `BlockValidity.AtMost` | app/src/main/jni/etzwallet-core/BRMerkleBlock.c:293-296 | The byte loop compares two 32-byte little-endian numbers |
| `BlockValidity.TargetBytes` | app/src/main/jni/etzwallet-core/BRMerkleBlock.c:290-291 | The bytes written for a compact target are those of the number it stands for, and they stay inside the 32-byte buffer if and only if its size byte is at most 31 |
| `BlockValidity.SetLE32` | app/src/main/jni/etzwallet-core/BRMerkleBlock.c:290-291 | The four bytes of a word are put in place and nothing else changes; they are all inside the buffer if and only if it has four bytes left |
| `BlockValidity.IsValid` | app/src/main/jni/etzwallet-core/BRMerkleBlock.c:269-299 | A block is valid exactly when its root is right, its time is at most two hours ahead, its target is positive, without sign and at most 0x1d00ffff, and its hash is at most the target; so its hash is at most 0xffff * 256^26; writing the target stays within its 32-byte buffer exactly if its size byte is at most 31 |
| `BlockValidity.InRangeIsBelowLimit` | app/src/main/jni/etzwallet-core/BRMerkleBlock.c:287-288 | A target in range stands for no more than the limit |
| `Poly1305.AccumulateSplits` | app/src/main/jni/etzwallet-core/BRCrypto.c:744-755 | Processing a message in pieces that end at 16-byte boundaries gives the same accumulator |
| `Poly1305.LoadKey` | app/src/main/jni/etzwallet-core/BRCrypto.c:680-684 | The masked and shifted key words are the limbs of the clamped r |
| `Poly1305.AddBlock` | app/src/main/jni/etzwallet-core/BRCrypto.c:687-698 | The limbs gain the block with its padding bit |
| `Poly1305.MultiplyBy` | app/src/main/jni/etzwallet-core/BRCrypto.c:700-705 | The five 64-bit columns, with the factor 5 for 2^130, are the product modulo 2^130 - 5, none overflowing |
| `Poly1305.CarryInto` | app/src/main/jni/etzwallet-core/BRCrypto.c:707-710 | The partial carry chain leaves small limbs, and a value less by a multiple of 2^130 - 5; every 64-bit sum and 32-bit limb stays in range |
| `Poly1305.CarryFully` | app/src/main/jni/etzwallet-core/BRCrypto.c:714-716 | The final carries leave every limb below 2^26, and a value less by a multiple of 2^130 - 5; every 32-bit sum stays in range |
| `Poly1305.SubtractP` | app/src/main/jni/etzwallet-core/BRCrypto.c:718-724 | The masked subtraction leaves the value fully reduced |
| `Poly1305.Finish` | app/src/main/jni/etzwallet-core/BRCrypto.c:713-735 | The tag words are the reduced accumulator plus s modulo 2^128 |
| `Poly1305.Compress` | app/src/main/jni/etzwallet-core/BRCrypto.c:675-740 | One call advances the accumulator by the blocks it is given, as section 2.5 of RFC 7539 defines it |
| `Poly1305.Authenticate` | app/src/main/jni/etzwallet-core/BRCrypto.c:744-755 | The 16 bytes written are the little-endian tag of section 2.5 of RFC 7539, for every key and message |
| `Poly1305Example.ClampClears` | app/src/main/jni/etzwallet-core/BRCrypto.c:680-684 | Section 2.5.1 of RFC 7539: clamping clears the upper four bits of key bytes 3, 7, 11 and 15 and the lower two of bytes 4, 8 and 12, and nothing else |
| `Poly1305Example.ExampleIsRight` | app/src/main/jni/etzwallet-core/BRCrypto.c:744-760 | The tag of the example of section 2.5.2 of RFC 7539 |
| `Transaction.ComputeSize` | app/src/main/jni/etzwallet-core/BRTransaction.c:492-514 | The loops compute the size every fee is based on |
| `Serialisation.SizeIsLength` | app/src/main/jni/etzwallet-core/BRTransaction.c:255-312 | The size of a signed transaction is the length of what it is written out to |
| `Serialisation.ReadWritten` | app/src/main/jni/etzwallet-core/BRAddress.c:38-104 | A length of up to 64 bits is read back as written, whatever follows it, and takes as many bytes as it counts for |
| `Serialisation.UnsignedIsTypical` | app/src/main/jni/etzwallet-core/BRTransaction.c:503-506 | An input not signed yet counts as one with a signature script of 107 bytes |
| `Ledger.BooksBalance` | app/src/main/jni/etzwallet-core/BRWallet.c:151-245 | After every step the unspent outputs are exactly the wallet's outputs of accepted transactions not settled as spent, each once; the balance is their total and equals received minus sent |
| `Ledger.ConfirmedUtxos` | app/src/main/jni/etzwallet-core/BRWallet.c:151-245 | With every transaction confirmed, the unspent outputs are all wallet outputs that no listed transaction spends |
| `Ledger.OrderDoesNotMatter` | app/src/main/jni/etzwallet-core/BRWallet.c:151-245 | With every transaction confirmed, neither the unspent outputs nor the balance depend on the order of the list |
| `Ledger.TotalOfSameSet` | app/src/main/jni/etzwallet-core/BRWallet.c:229-235 | The total of the unspent outputs depends only on which they are |
| `Ledger.SettledAreSpent` | app/src/main/jni/etzwallet-core/BRWallet.c:229-235 | What is settled as spent has been spent by a listed transaction |
| `Ledger.SpentAre` | app/src/main/jni/etzwallet-core/BRWallet.c:185-188 | Known as spent is what a listed transaction spends that is not invalid |
| `Ledger.InvalidIff` | app/src/main/jni/etzwallet-core/BRWallet.c:170-183 | Invalid are exactly the unconfirmed transactions with an input that an earlier valid one spends, or from an earlier invalid one |
| `Ledger.PendingIff` | app/src/main/jni/etzwallet-core/BRWallet.c:190-210 | Pending are exactly the unconfirmed ones not invalid that are larger than 100000 bytes, pay less than 546 to somebody, or have an input that can be replaced, is not final, or is from an earlier pending one |
| `Ledger.NothingSpentIsLeft` | app/src/main/jni/etzwallet-core/BRWallet.c:229-235 | Nothing that an accepted transaction spends counts as unspent, whatever the order |
| `Ledger.TotalsAre` | app/src/main/jni/etzwallet-core/BRWallet.c:237-240 | Received are the rises of the balance from one transaction to the next, sent its falls |
| `Ledger.UsedAre` | app/src/main/jni/etzwallet-core/BRWallet.c:214-217 | The used addresses are those that accepted transactions pay |
| `Wallet.BRWallet.UpdateBalance` | app/src/main/jni/etzwallet-core/BRWallet.c:151-245 | The loops leave the books that the specification computes from the transactions in their order |
| `Wallet.BRWallet.HasInvalidInput` | app/src/main/jni/etzwallet-core/BRWallet.c:171-176 | True exactly when an input is spent already or belongs to an invalid transaction |
| `Wallet.BRWallet.IsPendingNow` | app/src/main/jni/etzwallet-core/BRWallet.c:190-205 | True exactly when the transaction is too large, pays dust, can be replaced, is not final yet or depends on a pending one |
| `Wallet.BRWallet.AddOutputs` | app/src/main/jni/etzwallet-core/BRWallet.c:214-227 | The wallet's own outputs are appended and the balance grows by their total |
| `Wallet.BRWallet.DropSpent` | app/src/main/jni/etzwallet-core/BRWallet.c:229-235 | Scanning from the end drops exactly the spent outputs, and the balance stays the total |
| `Wallet.BRWallet.Account` | app/src/main/jni/etzwallet-core/BRWallet.c:168-241 | Bringing one transaction to account is one step of the specification, the early exits included |
| `Wallet.BRWallet.InsertTx` | app/src/main/jni/etzwallet-core/BRWallet.c:107-119 | The transaction is inserted at one place of the list, which stays sorted by height |
| `Wallet.BRWallet.RegisterTransaction` | app/src/main/jni/etzwallet-core/BRWallet.c:713-740 | A signed transaction of concern is known, listed and accounted for; another signed one is known only while unconfirmed; a known or unsigned one changes nothing. A new one is listed exactly if it is signed and pays an address of the wallet or spends an output of it, and nothing that a confirmed one spends counts as unspent afterwards |
| `Wallet.ConcernsIff` | app/src/main/jni/etzwallet-core/BRWallet.c:122-138 | What concerns the wallet is exactly what pays one of its addresses or spends one of its outputs |
| `Wallet.ConfirmedSpends` | app/src/main/jni/etzwallet-core/BRWallet.c:185-235 | Once a confirmed transaction is listed, nothing that it spends counts as unspent |
| `Wallet.BRWallet.Reinsert` | app/src/main/jni/etzwallet-core/BRWallet.c:950-955 | Taking a transaction out and inserting it again keeps the members and restores the order |
| `Wallet.BRWallet.UpdateTransactions` | app/src/main/jni/etzwallet-core/BRWallet.c:930-969 | The heights and times are recorded for exactly the given transactions, confirmed ones of no concern are forgotten, the list keeps its members and its order, and the books are recomputed exactly if a pending or invalid transaction changed |
| `Wallet.RecordedIs` | app/src/main/jni/etzwallet-core/BRWallet.c:942-963 | Recording forgets exactly the transactions given that become confirmed, differ and have nothing to do with the wallet, and changes height and time of the other ones given |
| `Wallet.BRWallet.SetTxUnconfirmedAfter` | app/src/main/jni/etzwallet-core/BRWallet.c:972-993 | Exactly the listed transactions above the height become unconfirmed, the list stays sorted, and the books are recomputed if there were any |
| `Wallet.BRWallet.ChildrenOf` | app/src/main/jni/etzwallet-core/BRWallet.c:771-781 | Stopping at the first lower transaction still finds every listed transaction that spends from the given one |
| `Wallet.BRWallet.RemoveTransaction` | app/src/main/jni/etzwallet-core/BRWallet.c:757-821 | The recursion ends, and removes from the list exactly the transaction and whatever depends on it through the list; each of those is reported, the transaction itself last |
| `Wallet.ConcernsRecorded` | app/src/main/jni/etzwallet-core/BRWallet.c:122-138 | Recording heights and forgetting transactions of no concern changes the concern of no transaction |
| `Wallet.TailRollsBack` | app/src/main/jni/etzwallet-core/BRWallet.c:976-988 | In a sorted list the transactions above a height are a tail, and the list stays sorted when they become unconfirmed |
| `Wallet.Forgetting` | app/src/main/jni/etzwallet-core/BRWallet.c:960-963 | Forgetting a confirmed transaction of no concern leaves every listed one known and of concern |
| `Ledger.StillRightIff` | app/src/main/jni/etzwallet-core/BRWallet.c:151-245 | After changes of heights, times and the wallet's height that keep the order, recomputing gives the same books if and only if each transaction, judged by the books before it, is still invalid, pending or neither as it was |
| `Ledger.KindsAre` | app/src/main/jni/etzwallet-core/BRWallet.c:171-208 | The invalid and the pending transactions are exactly those judged so in their turn |
| `Wallet.ConfirmingKeepsBooksIff` | app/src/main/jni/etzwallet-core/BRWallet.c:942-966 | When only transactions that are neither pending nor invalid are confirmed, and their order stays, the books that are not recomputed are right if and only if every pending transaction is still pending |
| `Wallet.ReorderingOutdatesHistory` | app/src/main/jni/etzwallet-core/BRWallet.c:950-966 | Confirming the later of two received payments first reorders the list without recomputing, and the history of balances would be another |
| `Descendants.SurvivorsTwice` | app/src/main/jni/etzwallet-core/BRWallet.c:783-790 | Removing some transactions with their dependents and then others is removing all of them at once, shared dependents included |
| `Descendants.SurvivesBoth` | app/src/main/jni/etzwallet-core/BRWallet.c:783-790 | Removing dependents first does not cut off what still depends on the transaction |
| `Descendants.DependentRoots` | app/src/main/jni/etzwallet-core/BRWallet.c:783-790 | Children add nothing to what goes with their parent |
| `Descendants.ChildlessGoesAlone` | app/src/main/jni/etzwallet-core/BRWallet.c:792-797 | A transaction nothing depends on goes alone |
| `Descendants.NoDanglingSpend` | app/src/main/jni/etzwallet-core/BRWallet.c:757-821 | Nothing left in the list spends from what was removed |
| `Chain.AncestryIs` | app/src/main/jni/etzwallet-core/BRPeerManager.c:1090-1101 | A block's stored ancestors are linked by parent and each one lower |
| `Chain.JoinIsHighest` | app/src/main/jni/etzwallet-core/BRPeerManager.c:1291-1298 | The walk back stops at the highest block the two chains share if they share one, and otherwise where the chain whose stored part ends higher runs out |
| `Chain.PrunedAreLow` | app/src/main/jni/etzwallet-core/BRPeerManager.c:1108-1116 | Pruning at a transition removes only blocks more than 2016 below it, and no transition block |
| `Chain.PruningKeepsLast` | app/src/main/jni/etzwallet-core/BRPeerManager.c:1108-1116 | Pruning never removes the last block |
| `Chain.PruningSparesWalks` | app/src/main/jni/etzwallet-core/BRPeerManager.c:1108-1116 | No walk back that stays within 2016 of the pruning block is changed by pruning |
| `Chain.TransitionSpared` | app/src/main/jni/etzwallet-core/BRChainParams.h:105-122 | The second walk back finds the same transition block after pruning, and so does that of every block at least as high |
| `Chain.LowerSparedIff` | app/src/main/jni/etzwallet-core/BRPeerManager.c:1094-1117 | A transition block lower than the pruning one finds the same earlier transition block after pruning if and only if no block strictly between the two is an ancestor of the pruning block; otherwise it finds none |
| `Chain.FreedIff` | app/src/main/jni/etzwallet-core/BRPeerManager.c:1108-1116 | Of the ancestors of a lower transition block down to its transition block, pruning frees exactly those that are also ancestors of the pruning block |
| `Chain.PruningBreaksWalk` | app/src/main/jni/etzwallet-core/BRPeerManager.c:1094-1117 | A usable state and a fork's transition block that is put on the fork before the main chain reaches its next transition and refused after that |
| `Chain.AddingSparesLines` | app/src/main/jni/etzwallet-core/BRPeerManager.c:1289 | Adding a block changes no chain that starts at or below its height |
| `Chain.JudgedHeight` | app/src/main/jni/etzwallet-core/BRPeerManager.c:1149-1289 | What the branch taken says about the block's parent and height |
| `Chain.RelayKeeps` | app/src/main/jni/etzwallet-core/BRPeerManager.c:1140-1340 | One relayed block keeps the state well-formed: the last block stays stored and gets no lower, and a block added is one above a stored parent and not above the last block |
| `Chain.EveryRunIsSafe` | app/src/main/jni/etzwallet-core/BRPeerManager.c:1140-1363 | Over every run of relayed blocks the last block stays stored, its height never falls and is at least that of every stored block the run has added; each block that the run has added or replaced contradicts no checkpoint and obeyed the rules when it came: parent stored, right target, block 2016 below stored at a transition, above the last checkpoint if beside the chain, no late mere header; the estimate never falls |
| `Chain.StoredIsRuled` | app/src/main/jni/etzwallet-core/BRPeerManager.c:1086-1138 | Whatever is stored obeys the rules; on the main net the target is the parent's, or at heights that 2016 divides the one retargeted by the time since the block 2016 below |
| `Chain.BelowIs` | app/src/main/jni/etzwallet-core/BRPeerManager.c:1094-1101 | The line of stored ancestors lists the blocks so many steps below |
| `Verdicts.ProperIsPlaced` | app/src/main/jni/etzwallet-core/BRPeerManager.c:1232-1330 | A block that obeys the rules, with nothing lost from its target, always goes where it belongs: on top, in the place of its copy, among the waiting ones, nowhere, or on a fork, which becomes the main chain if it is higher |
| `Verdicts.OthersAreNot` | app/src/main/jni/etzwallet-core/BRPeerManager.c:1181-1230 | A block that is unwanted, without a stored parent or against the rules is not stored and moves nothing; without a parent it waits unless older than a week |
| `Verdicts.FreedExactly` | app/src/main/jni/etzwallet-core/BRPeerManager.c:1108-1116 | Exactly the ancestors more than 2016 below a wanted block at a height that 2016 divides are freed, except those at such heights |
| `Chain.SeveredIff` | app/src/main/jni/etzwallet-core/BRPeerManager.c:1291-1298 | The walk back runs out of the new chain first if and only if the two chains share no stored block and the new one's does not go down further |
| `Chain.CrashesIff` | app/src/main/jni/etzwallet-core/BRPeerManager.c:1254-1302 | A null block is dereferenced if and only if a stored block is relayed again that is lower than all that is stored of the main chain, or a new block makes a higher chain severed from it |
| `Chain.ForkCrashes` | app/src/main/jni/etzwallet-core/BRPeerManager.c:1291-1300 | A block on a later checkpoint, while the last block is the first checkpoint, leads to the null block in the reorganisation |
| `Chain.KnownBlockCrashes` | app/src/main/jni/etzwallet-core/BRPeerManager.c:1259-1262 | A block on a checkpoint below the saved blocks, relayed twice, leads to the null block in the comparison |
| `Reorg.ReorganisationInStep` | app/src/main/jni/etzwallet-core/BRPeerManager.c:1300-1323 | After a reorganisation a wallet transaction matched above the join has the height of the lowest block of the new chain that matched it; one not matched is unchanged if confirmed at or below the join, and unconfirmed otherwise |
| `Reorg.MatchedOnce` | app/src/main/jni/etzwallet-core/BRPeerManager.c:1304-1321 | A transaction matched once on the new chain has the height of the block that matched it |
| `Reorg.ReplayedHeight` | app/src/main/jni/etzwallet-core/BRPeerManager.c:1304-1321 | Replaying the new chain from the top down lets the lowest match win and leaves the others alone |
| `InStep.EveryRunInStepIff` | app/src/main/jni/etzwallet-core/BRPeerManager.c:1140-1363 | Over every run of relayed blocks and changes of the wallet's list: at every moment each listed transaction is unconfirmed, as at the start, or confirmed at a height where the last block's chain has a block that a relayed copy showed to match it, if and only if every relayed block spares the listed transactions |
| `InStep.RelayFitsIff` | app/src/main/jni/etzwallet-core/BRPeerManager.c:1140-1340 | One relayed block keeps every listed transaction in step with the chain if and only if it does not lead to a reorganisation in which the old chain runs out of stored blocks above a transaction that the new chain does not confirm |
| `InStep.AllowedFitsIff` | app/src/main/jni/etzwallet-core/BRPeerManager.c:1232-1330 | The same for one transaction and a block that its predecessors allow, whether it extends, repeats, forks or reorganises |
| `InStep.ReorganisedFits` | app/src/main/jni/etzwallet-core/BRPeerManager.c:1291-1323 | After a reorganisation what was confirmed at or below the join is confirmed by the new chain, and what was matched above it by the block that matched it |
| `InStep.StoredAtHeight` | app/src/main/jni/etzwallet-core/BRPeerManager.c:1108-1116 | The block that confirms a transaction is stored at that height, unless the stored chain of the last block ends above it |
| `InStep.MatchesAreRecorded` | app/src/main/jni/etzwallet-core/BRPeerManager.c:1232-1245 | Of a wallet transaction that a block matches which has become the last one on top of the old one, exactly its height and the mean time of both blocks are recorded; nothing else changes |
| `InStep.OtherMatches` | app/src/main/jni/etzwallet-core/BRPeerManager.c:1252-1265 | The same for a stored block of the main chain relayed again; any other block but a reorganising one changes no transaction |
| `InStep.GapFitsIff` | app/src/main/jni/etzwallet-core/BRPeerManager.c:1291-1304 | Where the old chain runs out of stored blocks, a transaction goes on fitting if and only if it is above the place where the walk ended, or as at the start, or was matched by the block of the new chain at its height, the stored one if that is stored |
| `InStep.SharedSpares` | app/src/main/jni/etzwallet-core/BRPeerManager.c:1291-1298 | Where the two chains share a stored block, the old one does not run out |
| `InStep.RunIsHistory` | app/src/main/jni/etzwallet-core/BRPeerManager.c:1140-1363 | What relaying a block and the orphans waiting for it does to state and wallet is a history of the single steps that the statement over runs is about |
| `OutOfStep.RunOutOfStep` | app/src/main/jni/etzwallet-core/BRPeerManager.c:1094-1304 | A run from a new manager in which everything is in step until the last block, and then a transaction keeps the height that it has from a block no longer on the chain: a fork whose lower blocks are relayed again after they were freed overtakes a main chain whose lower blocks are still freed |
| `OutOfStep.NewManager` | app/src/main/jni/etzwallet-core/BRPeerManager.c:1455-1517 | That run starts from the state of a manager for which no blocks were saved |
| `PeerManager.BRPeerManager.constructor` | app/src/main/jni/etzwallet-core/BRPeerManager.c:1455-1517 | The loading loop ends; the checkpoints are stored, and so are the saved blocks that follow one another from the highest saved transition block; the last block is where those end, or without any the checkpoint to start from |
| `PeerManager.StartCheckpointIs` | app/src/main/jni/etzwallet-core/BRPeerManager.c:1455-1517 | The checkpoint to start from is the last one more than a week older than the keys, and without any the first |
| `PeerManager.BRPeerManager.MainNetVerifyDifficulty` | app/src/main/jni/etzwallet-core/BRChainParams.h:105-122 | The walk measures the time since the transition block 2016 back |
| `PeerManager.BRPeerManager.FreeBefore` | app/src/main/jni/etzwallet-core/BRPeerManager.c:1108-1116 | The loop frees exactly the stored ancestors of the transition block that are not transition blocks |
| `PeerManager.BRPeerManager.VerifyBlock` | app/src/main/jni/etzwallet-core/BRPeerManager.c:1087-1138 | A block is allowed exactly when its transition block is stored, its target is right and no checkpoint contradicts it; old blocks are pruned even if it is refused |
| `PeerManager.BRPeerManager.FindJoin` | app/src/main/jni/etzwallet-core/BRPeerManager.c:1291-1298 | The loop finds the join of the two chains, or says which one ran out |
| `PeerManager.BRPeerManager.Replay` | app/src/main/jni/etzwallet-core/BRPeerManager.c:1304-1321 | The loop records the matches of every block of the new chain above the join |
| `PeerManager.BRPeerManager.Reorganise` | app/src/main/jni/etzwallet-core/BRPeerManager.c:1291-1323 | The wallet follows the new chain; a null block is dereferenced exactly if the chains share no stored block and the new one's does not go down further |
| `PeerManager.BRPeerManager.PlaceKnown` | app/src/main/jni/etzwallet-core/BRPeerManager.c:1254-1274 | A stored block confirms its matches exactly if the main chain contains it, and a null block is dereferenced exactly if the main chain's stored part ends above it |
| `PeerManager.BRPeerManager.BlocksToSave` | app/src/main/jni/etzwallet-core/BRPeerManager.c:1342-1353 | The blocks saved are the longest range ending in a transition block; the assertion on it never fails |
| `PeerManager.SavedServes` | app/src/main/jni/etzwallet-core/BRPeerManager.c:1245-1351 | When the chain is complete the saved blocks go down to the second transition block below, which is what the next retargeting needs; before that a transition block is saved alone |
| `PeerManager.TrimLength` | app/src/main/jni/etzwallet-core/BRPeerManager.c:1350-1352 | Cutting the range back by the remainder of the last height gives that longest range |
| `PeerManager.BRPeerManager.RelayOne` | app/src/main/jni/etzwallet-core/BRPeerManager.c:1140-1360 | The new state, the known transactions, the next orphan and the blocks to save are those of the specification, for every branch |
| `PeerManager.BRPeerManager.RelayedBlock` | app/src/main/jni/etzwallet-core/BRPeerManager.c:1140-1363 | The orphans that wait are relayed one after the other until nothing waits for the block just relayed, or a null block is dereferenced; this ends, and without a null block it is a run to which the safety of runs applies, and the wallet knows what the run gives it, step by step |
| `PeerManager.NoneLeftWaiting` | app/src/main/jni/etzwallet-core/BRPeerManager.c:1334-1363 | Relaying ends only when no orphan waits for the block stored last |
| `PeerManager.NextIsHigher` | app/src/main/jni/etzwallet-core/BRPeerManager.c:1334-1339 | Each orphan relayed is one higher and fewer orphans are above it, which ends the recursion |
| `PeerManager.BRPeerManager.BlockLocators` | app/src/main/jni/etzwallet-core/BRPeerManager.c:241-259 | The locators are the blocks ten single steps and then doubling steps back, then the first checkpoint, cut to the room there is; the count is that of all of them |
| `PeerManager.OffsetIs` | app/src/main/jni/etzwallet-core/BRPeerManager.c:241-259 | The first ten locators are consecutive blocks, and from then on each step is twice the one before |
| `CoinSelection.FeeAscends` | app/src/main/jni/etzwallet-core/BRWallet.c:52-58 | A larger size never costs a smaller fee |
| `CoinSelection.FeeIs` | app/src/main/jni/etzwallet-core/BRWallet.c:52-58 | The fee is at least one for each byte and at least the rate; it is exactly the former, or a multiple of a hundred less than a hundred above the latter |
| `CoinSelection.MinOutputIs` | app/src/main/jni/etzwallet-core/BRWallet.c:1120-1129 | The smallest output is the least that is at least 546 and 546 scaled by the rate |
| `CoinSelection.RoundedLeaves` | app/src/main/jni/etzwallet-core/BRWallet.c:630-634 | Rounding adds less than a hundred to the fee and leaves a multiple of a hundred in the wallet |
| `CoinSelection.BRTransaction.ShuffleOutputs` | app/src/main/jni/etzwallet-core/BRTransaction.c:475-489 | Shuffling permutes the outputs |
| `CoinSelection.Permuted` | app/src/main/jni/etzwallet-core/BRTransaction.c:475-489 | Neither the amounts nor the size depend on the order of the outputs |
| `CoinSelection.SelectInputs` | app/src/main/jni/etzwallet-core/BRWallet.c:585-638 | The inputs are those of the shortest prefix of the unspent outputs that pays exactly or leaves enough for change, or of all of them; the fee is set for them; too large exactly when the next input exceeds the size limit before that |
| `CoinSelection.InputsSpend` | app/src/main/jni/etzwallet-core/BRWallet.c:592-597 | The inputs spend exactly the known ones of the outputs taken, each once, final and not signed |
| `CoinSelection.CreateTxForOutputs` | app/src/main/jni/etzwallet-core/BRWallet.c:566-656 | Inputs equal outputs plus change plus fee; the inputs are no more than needed; the fee is at least that of the final size if one more output does not widen the count; change exceeds the minimum and without it the excess does not; failing means all inputs together do not suffice |
| `CoinSelection.MaximumIsPayable` | app/src/main/jni/etzwallet-core/BRWallet.c:1132-1160 | Everything together pays for the largest amount with its fee, rounding included |
| `CoinSelection.MaxOutputAmount` | app/src/main/jni/etzwallet-core/BRWallet.c:1132-1160 | The loop computes the largest amount from the spendable outputs |
| `CoinSelection.MaximumIs` | app/src/main/jni/etzwallet-core/BRWallet.c:1132-1160 | The largest amount is all there is less the fee of a transaction with all inputs and two usual outputs |
| `CoinSelection.PayMaximum` | app/src/main/jni/etzwallet-core/BRWallet.c:1096-1117 | Paying a positive largest amount to a script of at most 25 bytes never fails, and succeeds if a transaction with all inputs is within the size limit |
| `GapLimit.AddressChains.UnusedAddrs` | app/src/main/jni/etzwallet-core/BRWallet.c:323-379 | The addresses returned come directly after the last used one, as many as asked for unless derivation fails; the set of all addresses is the union of both chains, moved array or not |
| `GapLimit.AddressChains.Extend` | app/src/main/jni/etzwallet-core/BRWallet.c:333-349 | Generation ends with used addresses not yet in the chain and the remaining gap, leaves the gap filled, and generates no address beyond it |
| `GapLimit.PlaceIsUnique` | app/src/main/jni/etzwallet-core/BRWallet.c:335-336 | Only one place comes directly after the last used address |
| `GapLimit.GapIsFilled` | app/src/main/jni/etzwallet-core/BRWallet.c:351-355 | With derivation succeeding, the addresses of the gap are consecutive, derived and unused |
| `Base58.Encode` | app/src/main/jni/etzwallet-core/BRBase58.c:36-72 | The buffer always suffices, no carry overflows, and the string is the encoding, with the length even when there is no room |
| `Base58.Decode` | app/src/main/jni/etzwallet-core/BRBase58.c:75-142 | The buffer always suffices, and the bytes are those of the string up to its first invalid character |
| `Base58.MultiplyAdd` | app/src/main/jni/etzwallet-core/BRBase58.c:51-55 | The carry loop multiplies the number in the buffer and adds a digit; the carry stays below the factor and ends as zero |
| `Base58.EncodeFits` | app/src/main/jni/etzwallet-core/BRBase58.c:44 | The encoder's buffer of n*138/100+1 digits holds every number of n bytes |
| `Base58.DecodeFits` | app/src/main/jni/etzwallet-core/BRBase58.c:82 | The decoder's buffer of n*733/1000+1 bytes holds every number of n digits |
| `Base58.DecodedOfEncoded` | app/src/main/jni/etzwallet-core/BRBase58.c:36-142 | Decoding undoes encoding on every byte string, leading zeros included |
| `Base58.EncodedOfDecoded` | app/src/main/jni/etzwallet-core/BRBase58.c:36-142 | Encoding undoes decoding on every valid string, leading ones included |
| `Base58.ConvertBack` | app/src/main/jni/etzwallet-core/BRBase58.c:36-142 | Changing the base of a numeral and back gives the same numeral |
| `Base58.CheckEncode` | app/src/main/jni/etzwallet-core/BRBase58.c:145-162 | The string encodes the data with its checksum |
| `Base58.CheckDecode` | app/src/main/jni/etzwallet-core/BRBase58.c:165-185 | The data is returned exactly if the checksum is right; a failure gives length zero |
| `Base58.CheckDecodedIff` | app/src/main/jni/etzwallet-core/BRBase58.c:145-185 | A valid string decodes to some data if and only if it is the encoding of that data |
| `Base58.ChecksumFollows` | app/src/main/jni/etzwallet-core/BRBase58.c:145-162 | The bytes encoded are the data followed by its checksum |
| `Base58.AlphabetIs` | app/src/main/jni/etzwallet-core/BRBase58.c:38 | The alphabet is the digits and letters in ascending order without 0, I, O and l |
| `Base58.ExampleIsRight` | app/src/main/jni/etzwallet-core/BRBase58.c:36-142 | The bytes 00626262 are 1a3gV |
| `Radix.DigitsOfVal` | app/src/main/jni/etzwallet-core/BRBase58.c:60-61 | A numeral without leading zeros is the one of its value |
| `Radix.ValOfDigits` | app/src/main/jni/etzwallet-core/BRBase58.c:60-61 | The digits of a number stand for it |
| `Bech32.PolyIsLinear` | app/src/main/jni/etzwallet-core/BRBech32.c:37-39 | The checksum step is linear over exclusive or |
| `Bech32.PolyIsInjective` | app/src/main/jni/etzwallet-core/BRBech32.c:37-39 | The checksum step maps no nonzero word of 30 bits to zero |
| `Bech32.FoldCarries` | app/src/main/jni/etzwallet-core/BRBech32.c:79 | A difference in the checksum is carried along independently of the values that follow |
| `Bech32.ChecksumIsRight` | app/src/main/jni/etzwallet-core/BRBech32.c:138-140 | The six values appended make the whole fold to one |
| `Bech32.JoinedIsByte` | app/src/main/jni/etzwallet-core/BRBech32.c:81-84 | The bytes put together from the five-bit groups of some bytes are those bytes |
| `Bech32.EncoderStep` | app/src/main/jni/etzwallet-core/BRBech32.c:129-136 | The groups cut from two neighbouring bytes are those of the bit string, in order |
| `Bech32.RoundTrip` | app/src/main/jni/etzwallet-core/BRBech32.c:42-144 | For every non-empty human-readable part and every program whose address fits in 90 characters, decoding the address gives both back |
| `Bech32.RoundTripOfData` | app/src/main/jni/etzwallet-core/BRBech32.c:42-144 | The same on the bytes the encoder takes, length byte included |
| `Bech32.SubstitutionDetected` | app/src/main/jni/etzwallet-core/BRBech32.c:42-97 | Replacing one data character by another of a different value always makes decoding fail |
| `Bech32.Encode` | app/src/main/jni/etzwallet-core/BRBech32.c:101-144 | The address is the specified one, or none for a bad human-readable part, version or length; it fits the buffer of 91 bytes exactly if it has at most 90 characters |
| `Bech32.FitsBufferIff` | app/src/main/jni/etzwallet-core/BRBech32.c:101-144 | What the encoder writes stays inside its buffer if and only if the human-readable part and the groups of the program leave room |
| `Bech32.LongAddress` | app/src/main/jni/etzwallet-core/BRBech32.c:125-126 | A human-readable part and a program that pass the length test although the address does not fit the buffer |
| `Bech32.Decode` | app/src/main/jni/etzwallet-core/BRBech32.c:42-97 | The result is the specified one, for every string |
| `Bech32.AppendGroups` | app/src/main/jni/etzwallet-core/BRBech32.c:129-136 | The loop appends the padded five-bit groups of the program and folds them into the checksum |
| `Bech32.ReadData` | app/src/main/jni/etzwallet-core/BRBech32.c:64-85 | The loop reads the version, folds every value and puts the bytes together in its buffer of 52 bytes |
| `Bech32Standard.StepIsMultiplication` | app/src/main/jni/etzwallet-core/BRBech32.c:37-39 | One checksum step is the multiplication by x modulo the generator of BIP 173 over the field of 32 elements |
| `Bech32Standard.ExampleIsRight` | app/src/main/jni/etzwallet-core/BRBech32.c:42-144 | The address bc1sw50qa3jx3s of BIP 173 is that of version 16 with the program 751e, and back |
| `Bech32Standard.EncodedIff` | app/src/main/jni/etzwallet-core/BRBech32.c:109-125 | Exactly when there is an address: length and characters of the part, version and length of the program |
| `Bech32Standard.DecodedNeeds` | app/src/main/jni/etzwallet-core/BRBech32.c:50-93 | What is decoded has 8 to 90 printable characters of one case, a version up to 16 and 2 to 40 bytes |
| `Bech32.CharIsListed` | app/src/main/jni/etzwallet-core/BRBech32.c:103 | The characters of the 32 values, one by one |
| `SBox.InvSubOfSub` | app/src/main/jni/etzwallet-core/BRBIP38Key.c:50-86 | The inverse table undoes the substitution table for every byte |
| `SBox.SubOfInvSub` | app/src/main/jni/etzwallet-core/BRBIP38Key.c:50-86 | The substitution table undoes the inverse table for every byte |
| `Aes.SubIsSpec` | app/src/main/jni/etzwallet-core/BRBIP38Key.c:50-67 | Section 5.1.1 of FIPS 197: the table holds the affine map of the inverse in the field of 256 elements, and of zero for zero |
| `Aes.DoubleReduces` | app/src/main/jni/etzwallet-core/BRBIP38Key.c:87-88 | Doubling is multiplication by x modulo x^8 + x^4 + x^3 + x + 1 |
| `Aes.MixesAreProducts` | app/src/main/jni/etzwallet-core/BRBIP38Key.c:108-151 | The coefficients of mixing and unmixing are 2, 3, 1, 1 and 14, 11, 13, 9 |
| `Aes.MixIsSpec` | app/src/main/jni/etzwallet-core/BRBIP38Key.c:108-111 | The code's way of mixing a column is the multiplication of section 5.1.3 of FIPS 197 |
| `Aes.UnmixIsSpec` | app/src/main/jni/etzwallet-core/BRBIP38Key.c:147-151 | The code's way of unmixing a column is the multiplication of section 5.3.3 of FIPS 197 |
| `Aes.UnmixOfMix` | app/src/main/jni/etzwallet-core/BRBIP38Key.c:147-151 | The code's way of unmixing undoes it |
| `Aes.MixOfUnmix` | app/src/main/jni/etzwallet-core/BRBIP38Key.c:108-151 | Mixing undoes unmixing |
| `Aes.KeyStep` | app/src/main/jni/etzwallet-core/BRBIP38Key.c:113-118 | Combining a key byte with its term takes it to the next expansion and, done again, back |
| `Aes.ExpandKey` | app/src/main/jni/etzwallet-core/BRBIP38Key.c:113-118 | One expansion in place gives the next 32 bytes of the key schedule of section 5.2 of FIPS 197 and its next round constant |
| `Aes.UnexpandKey` | app/src/main/jni/etzwallet-core/BRBIP38Key.c:159-165 | One expansion is undone in place, the round constant included |
| `Aes.Encrypt` | app/src/main/jni/etzwallet-core/BRBIP38Key.c:90-126 | The block becomes that of the cipher of section 5.1 of FIPS 197 with 14 rounds, the key schedule running in place |
| `Aes.Decrypt` | app/src/main/jni/etzwallet-core/BRBIP38Key.c:128-173 | The block becomes that of the inverse cipher of section 5.3 of FIPS 197, the key schedule running forwards and then backwards |
| `Aes.RoundsBack` | app/src/main/jni/etzwallet-core/BRBIP38Key.c:144-166 | After n inverse rounds the state is that before round 14 - n with its round key |
| `Aes.InvCipherOfCipher` | app/src/main/jni/etzwallet-core/BRBIP38Key.c:90-173 | Deciphering undoes enciphering for every key and block |
| `Aes.RoundsForth` | app/src/main/jni/etzwallet-core/BRBIP38Key.c:98-120 | After n rounds on a deciphered block the state is that before inverse round 14 - n, with its round key |
| `Aes.CipherOfInvCipher` | app/src/main/jni/etzwallet-core/BRBIP38Key.c:90-173 | Enciphering undoes deciphering for every key and block |
| `AesExample.ExampleIsRight` | app/src/main/jni/etzwallet-core/BRBIP38Key.c:90-173 | The example of appendix C.3 of FIPS 197 comes out as the standard says and goes back |
| `Peer.BRPeer.constructor` | app/src/main/jni/etzwallet-core/BRPeer.c:1049-1068 | A new connection has asked for nothing and nothing has happened on it |
| `Peer.BRPeer.SendPing` | app/src/main/jni/etzwallet-core/BRPeer.c:1494-1506 | The callback joins the end of the queue |
| `Peer.BRPeer.SendMempool` | app/src/main/jni/etzwallet-core/BRPeer.c:1353-1378 | A first request keeps its callback for later, a further one has its callback called with failure at once |
| `Peer.BRPeer.SendFilterload` | app/src/main/jni/etzwallet-core/BRPeer.c:1346-1351 | Transactions may come from now on, and the memory pool may be asked for again |
| `Peer.BRPeer.SendGetdata` | app/src/main/jni/etzwallet-core/BRPeer.c:1455-1486 | Asking for some hashes, but not too many, lets transactions and blocks come |
| `Peer.BRPeer.RerequestBlocks` | app/src/main/jni/etzwallet-core/BRPeer.c:1509-1521 | The block hashes since the last one that is the given block are kept and asked for; without it nothing changes |
| `Peer.BRPeer.MakeAll` | app/src/main/jni/etzwallet-core/BRPeer.c:1346-1521 | Requests that callbacks make take effect one after the other, each as specified |
| `Peer.BRPeer.PingForMempool` | app/src/main/jni/etzwallet-core/BRPeer.c:388-393 | The callback of the mempool request joins the queue with a ping and is no longer waiting elsewhere |
| `Peer.BRPeer.AcceptPong` | app/src/main/jni/etzwallet-core/BRPeer.c:645-687 | A pong with the right nonce calls back whoever pinged first, who may make requests; any other is refused and changes nothing |
| `Peer.BRPeer.AcceptInv` | app/src/main/jni/etzwallet-core/BRPeer.c:304-398 | Malformed or suspicious ones are refused, too long ones dropped; from any other the unknown transactions and wanted blocks become known, and a waiting mempool request is answered by a ping |
| `Peer.BRPeer.RememberBlocks` | app/src/main/jni/etzwallet-core/BRPeer.c:357-365 | Block hashes are appended, and the oldest third forgotten while there are too many |
| `Peer.BRPeer.AcceptTx` | app/src/main/jni/etzwallet-core/BRPeer.c:400-442 | The transaction is handed on and then ticked off the block being collected, which is relayed exactly when nothing is missing any more |
| `Peer.BRPeer.TickOff` | app/src/main/jni/etzwallet-core/BRPeer.c:426-430 | The last entry for the transaction goes |
| `Peer.BRPeer.AcceptMerkleblock` | app/src/main/jni/etzwallet-core/BRPeer.c:689-741 | The block is relayed at once if every matched transaction is known, and collected otherwise with exactly the unknown ones missing |
| `Peer.MissingHas` | app/src/main/jni/etzwallet-core/BRPeer.c:722-725 | The hashes missing from a merkleblock are exactly its matched ones that are not known |
| `Peer.BRPeer.AcceptHeaders` | app/src/main/jni/etzwallet-core/BRPeer.c:444-504 | Headers are handed on up to the first that is not valid, and accepted if all are |
| `Peer.BRPeer.AcceptMessage` | app/src/main/jni/etzwallet-core/BRPeer.c:812-841 | The connection goes to the state the specification gives for the message and the requests made meanwhile; anything but a transaction gives up the block being collected without relaying it |
| `Peer.BRPeer.Drain` | app/src/main/jni/etzwallet-core/BRPeer.c:1028-1038 | The pings' callbacks fail in order, those asked for meanwhile included, and then the one of the mempool request |
| `Peer.BRPeer.FailMempool` | app/src/main/jni/etzwallet-core/BRPeer.c:1037-1038 | The mempool callback fails while its request still counts as waiting, so that what it asks for meanwhile is refused |
| `Peer.BRPeer.ThreadRoutine` | app/src/main/jni/etzwallet-core/BRPeer.c:919-1042 | Whatever is received and asked for, in any order, the connection ends in the state of the specified life |
| `Peer.RelayIsComplete` | app/src/main/jni/etzwallet-core/BRPeer.c:432-437 | A block collected until nothing is missing has every matched transaction known on arrival or received before it is relayed |
| `Peer.QueueShrinks` | app/src/main/jni/etzwallet-core/BRPeer.c:676-683 | Calling the first of the queue keeps the order of answers that of the pings |
| `Peer.RequestKeeps` | app/src/main/jni/etzwallet-core/BRPeer.c:1346-1521 | A request of any kind keeps what is proved of the log, and leaves the block being collected alone |
| `Peer.MessageKeeps` | app/src/main/jni/etzwallet-core/BRPeer.c:812-841 | A message of any kind, and the requests made while it is handled, keep what is proved of the log |
| `Peer.EveryLife` | app/src/main/jni/etzwallet-core/BRPeer.c:919-1042 | Over every life of a connection, with messages and requests in any order: each relayed block had all its matched transactions known or received, and each that had is relayed before anything else happens to a block; pings are answered first in first out, and every callback has fired exactly once but those of pings that the failing mempool callback asks for |
| `Peer.RelayedIff` | app/src/main/jni/etzwallet-core/BRPeer.c:722-740 | Told from the log alone: the next thing that happens to a merkleblock is that it is relayed if everything it matches was known or arrives as often as matched, and otherwise that it is given up or the connection ends |
| `Peer.LifeTold` | app/src/main/jni/etzwallet-core/BRPeer.c:919-1042 | Over every life blocks are begun, relayed and given up only when due |
| `Peer.InventoryMakesKnown` | app/src/main/jni/etzwallet-core/BRPeer.c:304-398 | Which inventories are refused, in numbers; after another one what it announces is known and nothing else but what the program tells of |
| `Peer.HeadersHandedOn` | app/src/main/jni/etzwallet-core/BRPeer.c:444-504 | Exactly the headers before the first invalid one are handed on, in order |
| `Peer.PongAnswers` | app/src/main/jni/etzwallet-core/BRPeer.c:645-687 | Only a pong with the right nonce while a ping waits is accepted, and it answers the one that has waited longest |
| `Peer.MempoolTimesOut` | app/src/main/jni/etzwallet-core/BRPeer.c:1353-1378 | A mempool request is answered by a ping at the first look at the clock ten seconds later or more |
| `Peer.RefusedUntilAsked` | app/src/main/jni/etzwallet-core/BRPeer.c:410-412 | Transactions and blocks are refused until a filter is loaded or between 1 and 50000 hashes are asked for |
| `Peer.TrimmedIs` | app/src/main/jni/etzwallet-core/BRPeer.c:357-365 | Remembered are the newest block hashes: all of up to 50000, and otherwise at least 33334 |
| `Peer.ExactlyOnceIff` | app/src/main/jni/etzwallet-core/BRPeer.c:1028-1038 | From a new connection on: every callback fires exactly once if and only if no mempool callback waits at the end or, failing, it asks for no ping with a callback |
| `Peer.LostPing` | app/src/main/jni/etzwallet-core/BRPeer.c:1037-1038 | A ping whose callback never fires: the failing mempool callback asked for it |

## Left out

- Java and JNI code, sockets, DNS, threads and locks, logging and clocks.
- SHA-256, RIPEMD-160, scrypt, secp256k1 and BIP 32 derivation: uninterpreted functions with the properties a statement names.
- Floating point: Bloom filter sizing, the false-positive rate and its disconnections, ping averages.
- ChaCha20 and the authenticated encryption built on it: they would add easier members of the same kind.
- Constant time, wiping of buffers, allocation and freeing. Sets and buffers passed to one call are taken to be distinct objects.
- HashSet.BRSet.constructor: a capacity above the last but one listed size, for which the code makes no table.
- HashSet.BRSet.Add: more items than the largest listed table may hold; the code cannot grow past it.
- CoinSelection.CreateTxForOutputs: planning anew when the transaction grows too large is the outcome `Oversize`, because the reduced amount and the end of that recursion depend on rounding modulo 100.
- CoinSelection.PayMaximum: amounts and fees are unbounded naturals; wrap-around at 2^64 is not modelled, as amounts are bounded by the money supply.
- MerkleBlock.DecodingIsComplete: zero hashes, equal distinct siblings and 2^31 or more transactions are excluded; the walks give such trees up or do not end.
- BlockValidity.IsValid: a block with 2^31 or more transactions is excluded, since the loop for the depth of its tree does not end on a negative number; the result is left open when the target is written past its buffer.
- Difficulty.RetargetIsExactIff: timestamps 2^31 or more apart, whose difference wraps around; `FarTimes` says what they count as.
- Wallet.BRWallet.RegisterTransaction: that new addresses are generated afterwards is not part of it; address chains are modelled as their own object.
- Wallet.BRWallet.RemoveTransaction: spends are acyclic and no child is lower than its parent, as transactions that refer to each other by hash and blocks that confirm them in order guarantee; the flags telling the user and recommending a rescan are left out.
- Wallet.BRWallet.constructor: a wallet starts empty; transactions saved by an earlier session and the check of their signatures are not modelled.
- Topological order of the transactions, and the order of those of equal height: insertion promises only the order of heights, so the comparison of equal heights is a parameter.
- Wallet.ConcernsIff: an empty string among the wallet's addresses, which derivation never gives.
- Verdicts.ProperIsPlaced: a target from which something is lost; `Difficulty.VerifyDifficulty` says that the code then accepts another one than the rule's.
- Unspent outputs that a trailing pending transaction spends: the code skips the filter step for pending transactions, and `BooksBalance` says exactly what is left.
- Chain.EveryRunIsSafe: rescans, and with them the check on a replaced block's place among the orphans, are not modelled; heights are taken to agree with the hash links of the headers.
- Relaying a copy of a stored block that was the last orphan: the code then forgets the last orphan (`BRPeerManager.c` line 1273), and the model does not.
- InStep.EveryRunInStepIff: heights recorded before the manager was loaded count as they were at the start, whatever chain they came from. A wallet's list changes by adding unconfirmed transactions or removing some.
- Reorg.ReorganisationInStep: a transaction has to be in the wallet before the reorganisation; with several matches on the new chain the lowest block wins, which `MatchedOnce` specialises.
- Orphans that share a parent: the set keeps one for each parent, as the code does, and the last orphan is kept as a value.
- Requests for blocks, Bloom filter updates, mempool loading and timeouts that a relayed block causes, and the calls that tell the application.
- Bech32.RoundTrip: addresses of more than 90 characters, which do not decode; the encoder's buffer is a growable sequence here, and `FitsBufferIff` says when the code's writes leave it.
- Encoding what a Bech32 string decodes to: the decoder does not check padding bits, so the string may differ.
- Peer.BRPeer.AcceptMessage: verack, address, getdata, notfound, ping, reject and fee messages are one kind, accepted or not, whose only effect is the requests made meanwhile; blocks from headers have no matched transactions.
- Peer.BRPeer.ThreadRoutine: requests made by several callbacks of one inventory count as made at one point, those of other threads as made between two steps, and those of the callback for the disconnection itself not at all; requests for headers, blocks after locators and addresses change nothing that is modelled.
- Block and transaction parsing, block serialisation, scripts, BIP 38, BIP 39, Bloom filters and the payment protocol, except for what is listed above: easier round trips.
