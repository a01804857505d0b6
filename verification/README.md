# A verified model of the Proof-of-Luck node

The node keeps a blockchain in SQL tables, collects rival forks from its peers, adopts the luckier
one, and asks an enclave for proofs that make it wait before it may publish a block. This project models
the parts of it where arithmetic, state or branching is hard, and proves what they are for.

| file | what it models |
|---|---|
| `Ledger`, `ForkView`, `Queries` | the tables of the main chain and of forks, adoption of a fork, and the queries on a fork seen over main |
| `Verification`, `ForkChoice` | block verification on either view, and which chain is luckier |
| `Adoption`, `HarmfulForks` | when all of main still verifies after forks were adopted, over whole runs, and forks after which it does not |
| `Node`, `Sync`, `Chain`, `Client` | handling of received blocks over whole runs, the exchange between two nodes, and the objects that do both in place |
| `Rules` | what makes a block valid, a fork the next main chain, and a received block adopted, kept or refused, stated without the program's loops |
| `Packing`, `PackingRules` | packing waiting transactions into a block, and what is in it and why |
| `Enclave` | proof issuing by several enclave instances that share one monotonic counter, as a state machine |
| `Field`, `Limbs25`, `Limbs51` | arithmetic modulo 2^255 - 19 (section 4.1 of RFC 7748) in two limb representations |
| `Sha1`, `Sha1Example` | SHA-1 with streaming input, against FIPS 180-4 and its example |
| `Snowhouse` | the operator stacks that evaluate fluent constraint expressions |
| `Z85`, `Base64` | the two text encodings (ZeroMQ RFC 32/Z85 for the first) |
| `Nonces` | the counters that keep the two ends of an encrypted channel in step |
| `Framing`, `FramingRules`, `BlockText` | length-prefixed messages read from a socket in pieces, and blocks as text inside them |
| `TextExamples` | known texts of the encodings and of the wire |
| `Arguments`, `ArgumentRules` | the command-line parser: reordering of arguments, and which entry an option means |
| `UsageRows`, `UsageRules` | iteration over the parts of usage rows, and how they make up the text |
| `LineWrap`, `LineLayout` | wrapping of the last usage column, where it cuts and what it writes |

Code that works step by step is modelled by methods on arrays and objects, each proved equal to a
function of its inputs or of the old state; the properties are then lemmas about those functions.
What the model asks of its surroundings is a parameter: hashes, signatures, certificates and the clock
(`Verification.Env`), the sealed cipher (`Nonces.Opens`), the library's number conversions
(`Framing.Converts`, `BlockText.Converts`), option checks and actions (`Arguments.Env`).
Lucky numbers are exact reals, and `LIKE` on hashes and keys is read as equality.

Where the code does less than its comments or callers suggest, the model follows the code; lemmas give inputs for
which it fails, and say exactly when it does what is wanted:

- `fe25519_sq2` with five limbs doubles before it carries: for limbs below 2^54, which multiplication and squaring
  take, adding 19 times the top carry to the lowest word can wrap in 64 bits (`Limbs51.Sq2Overflows`,
  `Limbs51.Sq2IsTwiceTheSquareExactly`).
- `getBalance` on a fork starts at the fork's first block *with transactions* and joins both sides by `UNION`, which
  merges equal payments: the node can adopt a fork with a block that it would refuse on main
  (`HarmfulForks.MergedPaymentsShiftBalance`, `HarmfulForks.AdoptedForkFailsOnMain`;
  `Verification.BalanceDiffersBySurplus`, `Verification.AdoptionVerifiesExactly`).
- `getInputSumOfBlock` joins a block's inputs with transactions of any block, so a block of main below an adopted fork
  can stop verifying (`HarmfulForks.KeptBlockFailsLater`; `Adoption.KeptVerifiesExactly`).
- A certified block 1 that names a predecessor is answered as if it had been adopted, and leaves its fork behind
  (`Rules.FirstBlockLeavesAFork`; `Rules.UsedForkIsGoneExactly`).
- After dropping an unpayable transaction the packing loop passes over the one behind it, which stays in the pool
  (`Packing.UnsignedHidesTheNext`; `Packing.PassedOverExactly`).
- A padded Z85 text can be read outside itself or outside the table (`Z85.OneCharacterReadsOutside`,
  `Z85.BadByteReadsOutside`; `Z85.ReadsInsideExactly`).
- Two Nots in a row negate the operand on the left, or are refused (`Snowhouse.SecondNotNegatesTheLeft`,
  `Snowhouse.LeadingNotsAreMalformed`; `Snowhouse.TwoNotsRightExactly`).
- A piece of network input that ends inside a message token aborts the connection (`Framing.FramingIsExact`).
- The test that should keep miner rewards from going back to the pool lets them in, and keeps payments without inputs
  out (`Node.DroppedRewardReturns`, `Node.DroppedPaymentIsLost`).
- A boxer and an unboxer that are both given no constant part draw their own, and no message arrives
  (`Nonces.NothingArrives`; `Nonces.StartsAgreeExactly`).
- A parsed transaction has its inputs but a count of 0 inputs (`BlockText.TxRoundTrip`).

To check everything, run in this directory

    dafny verify dfyconfig.toml --resource-limit 2000000 --verification-time-limit 0

## Model

| member | source | states |
|---|---|---|
| Ledger.SaveThenLoad | Database/database.cpp:1700-1726 | saving one transaction appends it, with its inputs in order, to what loading that block gives, and changes the loading of no other block |
| Ledger.SaveAllThenLoad | Database/database.cpp:1822-1855 | the same for a list of transactions: a block loads as its old transactions followed by the saved ones |
| Ledger.ReplaceThenLoad | Database/database.cpp:92-141 | after replacing a block that index loads as exactly the new block and every other index loads as before, whatever was stored there |
| Ledger.InsertThenLoad | Database/database.cpp:204-244 | adding a block to a fork makes its index load as the block; a second block with an index the fork has changes nothing |
| Ledger.ReplaceBlockConsistent | Database/database.cpp:92-141 | replacing a block keeps row ids ascending and every row and input attached to a stored block |
| Ledger.InsertBlockConsistent | Database/database.cpp:204-244 | adding to a fork keeps the same invariant |
| ForkView.AdoptionLoads | Database/database.cpp:253-308 | after adoption every index of the fork loads as the fork's block, every other index as main's, the block table is the override of main by the fork, and the tables stay consistent |
| ForkView.AdoptedRows | Database/database.cpp:253-308 | a transaction row occurs in adopted main as often as in the fork when its block is the fork's, and as often as in main otherwise |
| ForkView.AdoptedSpent | Database/database.cpp:253-308 | an input is recorded for a block of adopted main exactly when it was for that block of the fork, or of main outside the fork |
| Verification.VerifiedBlockMeaning | Chain/blockchain.cpp:117-218 | a block that verifies carries the root of its transactions, the hash of its header, and a valid certificate unless it is the first one, and is not from the future; it pays out at most its inputs and the miner reward, repeats no known transaction, and each valid payment is positive and within the sender's balance before the block |
| Rules.VerifiedExactly | Chain/blockchain.cpp:117-218 | a block verifies if and only if all of this holds: root, hash and certificate; it hangs on the header below, is younger, and not from the future; no transaction is known; each is a regular payment, positive and within the balance, or the only reward, at most 50 and without inputs; it pays out exactly its inputs and that reward |
| Rules.RegularExactly | Chain/transactions.cpp:99-124 | a transaction is regular if and only if no input occurs twice in it and it is signed or paid to oneself |
| Rules.CheckedFrom | Chain/blockchain.cpp:133-200 | from any counts on, the loop with its early exits accepts exactly such transactions, and adds up their values and the reward |
| Rules.BalanceIsReceivedLessPaid | Database/database.cpp:863-917 | the balance on main is what the key received less what it paid, up to the block |
| Rules.InputSumIsOfNamed | Database/database.cpp:393-425 | the inputs of a block on main are worth the sum over the transactions that its inputs name, each hash and value counted once |
| Verification.ExistsAgrees | Database/database.cpp:360-391 | existsTransaction answers the same for the fork before adoption and for main after it, for contiguous forks that reach main's tip |
| Verification.InputSumAgrees | Database/database.cpp:393-425 | so does getInputSumOfBlock |
| Verification.BalanceRowsAgreeExactly | Database/database.cpp:863-917 | the balance query sees the same moving rows before and after adoption if and only if no block of adopted main holds two equal payments to somebody else and main has none between the fork's first block and its first block with transactions; for a fork without transactions, if and only if main has none below it |
| Verification.HiddenMove | Database/database.cpp:863-917 | a row of main at or above the fork point but below the fork's first paying block is counted once for the fork and not at all afterwards |
| Verification.BalanceDiffersBySurplus | Database/database.cpp:863-917 | for every contiguous fork that reaches main's tip, every key and every block, the two answers of getBalance differ by exactly what the hidden rows of main add minus what the merged or unseen rows add |
| Verification.BalanceAgrees | Database/database.cpp:863-917 | under the condition of BalanceRowsAgreeExactly getBalance agrees for every key and every block |
| Verification.PredecessorAgrees | Database/database.cpp:646-697 | the previous block that verification looks up is the same before and after adoption |
| Verification.CheckAgrees | Chain/blockchain.cpp:117-218 | a transaction list that the loop accepts in the fork is accepted on adopted main with the same totals if every signed payment is covered by the sender's balance there, and refused otherwise; the balance there is the fork's less that difference |
| Verification.AdoptionVerifiesExactly | Chain/blockchain.cpp:117-218 | a block that verified in a contiguous fork that reaches main's tip is loaded unchanged from adopted main, and verifies there, now and at any later time, if and only if its signed payments are covered |
| Verification.AdoptionKeepsVerification | Chain/blockchain.cpp:117-218 | in particular every such block stays verified when the fork has no transactions, or none that the balance query overlooks (the condition of BalanceRowsAgreeExactly); the fork is contiguous and reaches main's tip |
| Verification.WellLinkedHasNoGap | Chain/blockchain.cpp:117-218 | on a linked chain every index from 1 to the tip is present and timestamps rise strictly |
| Verification.VerifiedForkContiguous | Chain/blockchain.cpp:117-218 | a fork whose blocks all verify has no gap and starts right above a block of main |
| Verification.AdoptionKeepsLinks | Database/database.cpp:253-308 | adopting a verified fork that reaches main's tip keeps main hash-linked, gap-free and strictly increasing in time |
| Adoption.KeptVerifiesExactly | Chain/blockchain.cpp:117-218 | a verified block of main below such a fork is kept unchanged, and verifies after the adoption, now and at any later time, if and only if the rows that its inputs name still add up to the same |
| Adoption.SameInputsUnlessReused | Database/database.cpp:393-425 | they do when no row of main or of the fork from the fork point on has a hash that the block names |
| Adoption.AdoptionVerifiesMainExactly | Database/database.cpp:253-308 | when all of main and all of the fork verify, all of main verifies after the adoption if and only if both conditions hold for every block |
| Adoption.StepVerifiesExactly | Chain/blockchain.cpp:335-380 | one handled block keeps all of main verified if and only if it adopts nothing or adopts harmlessly |
| Adoption.RunVerifiesExactly | Chain/blockchain.cpp:335-380 | over any run in which adopted forks reach the tip and the clock never goes back, every block of every main chain verifies on it if and only if every adoption is harmless |
| Adoption.RunKeepsLinks | Chain/blockchain.cpp:335-380 | in such a run main stays hash-linked, gap-free and strictly increasing in time |
| HarmfulForks.MergedPaymentsShiftBalance | Database/database.cpp:863-917 | a fork on the genesis block with two equal payments in one block shows the miner 25 where main shows 0 after the adoption |
| HarmfulForks.TwicePayingRuns | Chain/blockchain.cpp:335-380 | the two blocks of that fork, received from the top down, are a run of the node that starts at its genesis block and ends with the adoption |
| HarmfulForks.AdoptedForkFailsOnMain | Chain/blockchain.cpp:287-311 | from the genesis block on, where all of main verifies, the node adopts that fork, every block of which verifies, and then main holds a third block that does not verify on it |
| HarmfulForks.KeptBlockFailsLater | Database/database.cpp:393-425 | on a main chain that verifies the node adopts one more block that verifies, and the block below it, kept unchanged, stops verifying because a transaction that it names as an input has come into being |
| ForkChoice.AdoptionImproves | Chain/blockchain.cpp:287-311 | an accepted fork strictly raises the pair of total luck and block hashes in index order, also when it is shorter than main |
| ForkChoice.ReplacedLuck | Database/database.cpp:1008-1051 | writing a fork over main from its first index on loses at most the luck of the blocks from there to the tip and gains the fork's |
| ForkChoice.ImprovesTransitive | Chain/blockchain.cpp:287-311 | the order by luck and hashes is transitive |
| ForkChoice.ImprovesIrreflexive | Chain/blockchain.cpp:287-311 | and no chain lies below itself |
| Rules.AdoptedExactly | Chain/blockchain.cpp:287-311 | the result for a fork is -2 if and only if one of its blocks does not verify; else 0 if and only if all its luck is more than main's from its first block on, wherever that lies on main, or as much while main's hash there comes before the fork's in a dictionary; and else -1 |
| Rules.BeforeExactly | Database/database.cpp:1032-1049 | hashes compare by the first place where they differ, or by length when one begins the other |
| Node.PoolAfterAdoption | Chain/blockchain.cpp:658-684 | exactly the hashes in the pool after an adoption: those there before, and of the transactions dropped from main the miner rewards and the payments with inputs, minus every transaction of the fork; hashes stay distinct |
| Node.DroppedRewardReturns | Chain/blockchain.cpp:663-668 | a miner reward that main loses is in the pool again if and only if the fork has no transaction with its hash |
| Node.DroppedPaymentIsLost | Chain/blockchain.cpp:663-668 | a payment without inputs that main loses is in the pool again if and only if its hash was there before or returns with another transaction, and the fork has none with it |
| Rules.DroppedExactly | Chain/blockchain.cpp:658-663 | the transactions that an adoption may drop are those of all blocks of main from the fork's first one on |
| Rules.PoolContents | Chain/blockchain.cpp:658-684 | what waits afterwards was waiting before, unchanged, or was dropped and has lost its inputs |
| Node.HandleOk | Chain/blockchain.cpp:335-380 | every path of handleBlock keeps main and all forks consistent and no fork empty |
| Node.StepImproves | Chain/blockchain.cpp:335-380 | one handled block leaves main as it is or improves it |
| Rules.HandledExactly | Chain/blockchain.cpp:335-380 | a block that hangs on main completes its fork, which is checked as above, adopted on 0, and gone in any case; a certified one that does not is collected and the index below is asked for; any other takes its fork with it; all else stays as it was |
| Rules.UsedForkIsGoneExactly | Chain/blockchain.cpp:335-380 | on a result up to 0 all other forks are as they were, and the one that was used is gone if and only if the block is above the first, hangs on main, or is not certified |
| Rules.FirstBlockLeavesAFork | Chain/blockchain.cpp:335-380 | a block 1 that names a predecessor is answered with 0, changes nothing on main and leaves a new fork behind |
| Node.RunNeverReturns | Chain/blockchain.cpp:335-380 | over any run total luck never falls, and once a fork was adopted main never again equals an earlier main |
| Sync.AttachesExactly | Chain/blockchain.cpp:335-380 | a block of a linked peer chain attaches to main exactly when the two chains share the block below it |
| Sync.SharedBelow | Network/client.cpp:251-278 | two linked chains that share a block, and whose blocks carry the hashes of their own headers, share everything below it if and only if no two headers at one index collide: have one hash and name different predecessors |
| Sync.SyncGathersPeerBlocks | Network/client.cpp:251-278 | the request loop asks for one index less each round, at most n - 1 times, stops at the highest common ancestor, and then offers a fork of exactly the peer's blocks above it |
| Sync.SyncEqualizesChains | Network/client.cpp:552-562 | when the offer of a peer whose chain is at least as long is adopted, the two nodes hold the same chain, hash by hash, if and only if no headers collide up to their highest common ancestor |
| Sync.VerifiedChainIsOwn | Chain/blockchain.cpp:117-218 | a chain that verifies carries the hashes of its own headers and valid certificates |
| Sync.VerifiedChainsEqualize | Network/client.cpp:251-278 | so between chains that verify, are linked and share their first block the same equivalence holds without presuming anything of the hashes |
| Client.Requester.HandleReceivedBlock | Network/client.cpp:251-278 | handles the block as specified and asks for the block below it under the same fork id, tells the peer to check its database, or sends nothing, as the result demands |
| Client.Responder.SendBlockResponse | Network/client.cpp:552-562 | the requested block, or the highest one for request 0, and nothing exactly when there is none; on a linked chain the answer to the request that follows a received block is the block that it names as its predecessor |
| Client.Requester.Synchronise | Network/client.cpp:251-278 | the two handlers in turn end, and run exactly the session about which the lemmas of Sync speak |
| Chain.Database.SaveTransaction | Database/database.cpp:1700-1726 | the row and input inserts are the specified table update |
| Chain.Database.ReplaceBlock | Database/database.cpp:92-141 | the delete and insert statements are the specified replacement |
| Chain.Database.CreateFork | Database/database.cpp:149-194 | a fresh id gets empty tables; as long as no fork has an id above the counter, it lies above the ids of all forks |
| Chain.Database.AddToFork | Database/database.cpp:204-244 | the block goes into that fork's tables alone, or is refused when its index is taken |
| Chain.Database.ApplyFork | Database/database.cpp:253-308 | loading the fork and replacing block by block is the specified adoption, and the fork is gone |
| Chain.Database.NextBlock | Database/database.cpp:539-572 | the iterator delivers each index of the fork once, in order, although it stands on the first row before the first call |
| Chain.Database.GetBlock | Database/database.cpp:619-644 | the delivered block is the one that loads from the row the iterator stands on |
| Chain.Database.IsLuckierChain | Database/database.cpp:1008-1051 | the summing loop and the tie-break decide as specified; Rules.AdoptedExactly says which forks that takes |
| Chain.Blockchain.VerifyBlock | Chain/blockchain.cpp:117-218 | the early-exit loop with its counters decides exactly the specified verification, which Rules.VerifiedExactly states without it |
| Chain.Blockchain.VerifyFork | Chain/blockchain.cpp:287-311 | the iterator loop verifies all blocks and leaves the fork's total luck and first index, with the program's treatment of index 0 |
| Chain.Blockchain.CheckTempChain | Chain/blockchain.cpp:287-311 | the result is -2, -1 or 0 as specified, which Rules.AdoptedExactly says when |
| Chain.Blockchain.MempoolUpdate | Chain/blockchain.cpp:658-684 | both loops over the pool are the specified update |
| Chain.Blockchain.HandleBlock | Chain/blockchain.cpp:335-380 | every branch changes main, forks, the id counter and the pool as specified, and returns the specified answer and fork id; Rules.HandledExactly lists the cases |
| Packing.PickOutputs | Chain/blockchain.cpp:477-493 | the output loop lists the specified inputs and sum, and charges the owner for exactly the outputs that were not used before |
| Packing.PayByChange | Chain/blockchain.cpp:456-476 | paying from change is the specified step and keeps the books |
| Packing.PayByOutputs | Chain/blockchain.cpp:477-529 | paying from outputs is the specified step, keeps the books, and its listed inputs never repeat |
| Packing.Mempool.PutTxInBlock | Chain/blockchain.cpp:436-558 | the loop ends although it erases from the list it walks, and returns the specified block and pool; with unique output hashes each output is charged at most once, none is an input of main, and for every sender the values spent, change included, equal the values charged; the change that becomes transactions has at most one entry for a sender, always positive |
| Packing.PassedOverExactly | Chain/blockchain.cpp:436-558 | with unique output hashes the block holds exactly the transactions that are left in the pool, in order, if and only if no transaction of the pool but the last is unsigned, not positive or known |
| Packing.UnsignedHidesTheNext | Chain/blockchain.cpp:530-534 | a payment that would be packed on its own is left out and stays in the pool when the one before it is not signed |
| Packing.NoOverspending | Chain/blockchain.cpp:436-558 | hence no sender spends more than its unspent outputs are worth, which PackingRules.UtxosExactly says what they are |
| PackingRules.UtxosExactly | Database/database.cpp:919-977 | the unspent outputs of a key are, each once, exactly what rows of main up to the tip pay it and no input up to there names |
| PackingRules.SpentCoinIsGone | Database/database.cpp:919-977 | a payment that was passed on is not among them |
| PackingRules.ChargesAreUnspent | Chain/blockchain.cpp:477-493 | what a block charges was paid to the one it is charged to, and is unspent |
| PackingRules.PickExactly | Chain/blockchain.cpp:477-493 | outputs are taken from the front until the unused ones among them cover the payment for the first time, or to the end |
| PackingRules.PaidExactly | Chain/blockchain.cpp:477-529 | a payment that the change does not cover is packed if and only if change and unused outputs together do, with unique output hashes and no output below 0 |
| PackingRules.ChangePaysExactly | Chain/blockchain.cpp:465-476 | a payment that the change covers names the inputs of the change, which shrinks by its value and is gone when nothing is left |
| PackingRules.OutputsPayExactly | Chain/blockchain.cpp:477-523 | any other takes outputs from the front, marks all it looks at as used, and names them, or only the inputs of the change when there is some; the change is then gone, and what is left over is new change from these outputs |
| PackingRules.PayableExactly | Chain/blockchain.cpp:453-454 | a transaction is tried if and only if it is signed, positive, and the first row of main with its hash is worth nothing, or there is none |
| PackingRules.BlockIsOfPayments | Chain/blockchain.cpp:436-558 | with unique output hashes a packed block consists of signed, positive and unknown payments of the pool, and of positive change paid to oneself; all of them name unspent outputs of their own senders only, and the pool keeps only transactions that were in it |
| Enclave.LuckierWaitsNoLonger | Enclave/src/Enclave/Enclave/Enclave.cpp:72-79 | a larger random number gives a larger lucky number and a waiting period that is no longer, always between 0 and 30 |
| Enclave.WaitIsTheRest | Enclave/src/Enclave/Enclave/Enclave.cpp:72-79 | the wait is 30 seconds less 30 for the random number as a fraction of its range, to the nearest second and up from a half: 30 seconds for 0, none for the largest |
| Enclave.StepKeepsInv | Enclave/src/Enclave/Enclave/Enclave.cpp:58-138 | every step of every instance keeps the protocol invariant |
| Enclave.EveryProofWaited | Enclave/src/Enclave/Enclave/Enclave.cpp:58-106 | and the interval of each proof, an only one too, lies within one clock epoch and is at least as long as its waiting period |
| Enclave.ProofsDoNotOverlap | Enclave/src/Enclave/Enclave/Enclave.cpp:58-106 | over every interleaving of instances on one counter the intervals from increment to read-back of two successful proofs are disjoint, and no two proofs carry the same counter value |
| Enclave.ElapsedCoversAllWaits | Enclave/src/Enclave/Enclave/Enclave.cpp:155-194 | real time between the first increment and the last read-back is at least the sum of all waiting periods |
| Enclave.ProofExactlyWhenAlone | Enclave/src/Enclave/Enclave/Enclave.cpp:58-106 | over every run an instance that reads back gets its proof if and only if no instance has incremented the counter since it did |
| Enclave.WaitsExactly | Enclave/src/Enclave/Enclave/Enclave.cpp:169-193 | the loop goes on if and only if the readings differ by less than the period, and the wait is over only under one clock |
| Enclave.LoopsExactly | Enclave/src/Enclave/Enclave/Enclave.cpp:170-181 | it sleeps and reads the clock again when both readings are of one clock, and begins anew otherwise |
| Enclave.AloneGetsItsProof | Enclave/src/Enclave/Enclave/Enclave.cpp:58-138 | an instance that nobody disturbs has a proof with its number after its waiting period, whatever it draws and the clock shows |
| Limbs25.MulIsFieldProduct | sodiumpp/include/sodiumpp/sodium/private/ed25519_ref10_fe_25_5.h:335-624 | whatever field elements the factors denote, the ten stored limbs denote their product modulo 2^255 - 19 |
| Limbs25.SquareIsProduct | sodiumpp/include/sodiumpp/sodium/private/ed25519_ref10_fe_25_5.h:637-796 | the squaring coefficients are limb for limb those of multiplying by itself |
| Limbs25.CarriedValue | sodiumpp/include/sodiumpp/sodium/private/ed25519_ref10_fe_25_5.h:560-624 | the carry chain changes the value by a multiple of the prime only |
| Limbs25.CarriedBounds | sodiumpp/include/sodiumpp/sodium/private/ed25519_ref10_fe_25_5.h:560-624 | and its output meets the bounds 1.01*2^25 and 1.01*2^24 for every input within 1.4*2^61 at even and 1.7*2^60 at odd positions, twice the bounds that the code states for a sum of products |
| Limbs25.Mul | sodiumpp/include/sodiumpp/sodium/private/ed25519_ref10_fe_25_5.h:335-624 | for factors within 1.65*2^26 and 1.65*2^25 no 32- or 64-bit value overflows, and the array ends as the carried product, also when it is one of the factors |
| Limbs25.Sq | sodiumpp/include/sodiumpp/sodium/private/ed25519_ref10_fe_25_5.h:637-796 | the same for squaring |
| Limbs25.SqDouble | sodiumpp/include/sodiumpp/sodium/private/ed25519_ref10_fe_25_5.h:809-965 | the same for twice the square |
| Limbs25.SqDoubleIsTwiceTheSquare | sodiumpp/include/sodiumpp/sodium/private/ed25519_ref10_fe_25_5.h:809-965 | what it stores denotes twice the field square |
| Limbs25.Add | sodiumpp/include/sodiumpp/sodium/private/ed25519_ref10_fe_25_5.h:40-64 | sums within the stated bounds, without overflow |
| Limbs25.Sub | sodiumpp/include/sodiumpp/sodium/private/ed25519_ref10_fe_25_5.h:78-105 | differences within the stated bounds, without overflow |
| Limbs25.SumsAreExact | sodiumpp/include/sodiumpp/sodium/private/ed25519_ref10_fe_25_5.h:40-105 | limb-wise sums and differences stand for the sum and difference of the values |
| Limbs51.MulIsFieldProduct | sodiumpp/include/sodiumpp/sodium/private/ed25519_ref10_fe_51.h:242-326 | whatever field elements the factors denote, the five stored limbs denote their product |
| Limbs51.SubIsFieldDifference | sodiumpp/include/sodiumpp/sodium/private/ed25519_ref10_fe_51.h:52-86 | the result of subtraction denotes the field difference |
| Limbs51.ScalarProductIsFieldMultiple | sodiumpp/include/sodiumpp/sodium/private/ed25519_ref10_fe_51.h:492-518 | the result denotes the multiple of the field element |
| Limbs51.SquareIsProduct | sodiumpp/include/sodiumpp/sodium/private/ed25519_ref10_fe_51.h:333-405 | the squaring sums are those of multiplying by itself |
| Limbs51.Sq2IsTwiceTheSquareExactly | sodiumpp/include/sodiumpp/sodium/private/ed25519_ref10_fe_51.h:412-490 | for limbs below 2^54 the result denotes twice the field square if and only if the sum that the top carry adds into the lowest word stays below 2^64 |
| Limbs51.Sq2Fits | sodiumpp/include/sodiumpp/sodium/private/ed25519_ref10_fe_51.h:412-490 | limbs below 2^53 always meet that condition |
| Limbs51.Sq2Overflows | sodiumpp/include/sodiumpp/sodium/private/ed25519_ref10_fe_51.h:412-490 | five limbs of 2^54 - 1 do not, and the result is wrong |
| Limbs51.RepresentationsAgree | sodiumpp/include/sodiumpp/sodium/private/ed25519_ref10_fe_51.h:242-326 | products in the two representations denote the same element when the factors do |
| Limbs51.Mul | sodiumpp/include/sodiumpp/sodium/private/ed25519_ref10_fe_51.h:242-326 | for limbs below 2^54 no 64- or 128-bit value overflows, the array ends as the carried product with limbs of at most 2^51 |
| Limbs51.Sq | sodiumpp/include/sodiumpp/sodium/private/ed25519_ref10_fe_51.h:333-405 | the same for squaring, with the result of multiplying by itself |
| Limbs51.Sq2 | sodiumpp/include/sodiumpp/sodium/private/ed25519_ref10_fe_51.h:412-490 | the stored limbs with the lowest word taken modulo 2^64, each at most 2^51 |
| Limbs51.Sub | sodiumpp/include/sodiumpp/sodium/private/ed25519_ref10_fe_51.h:52-86 | no word underflows for limbs below 2^54, and each limb grows by less than 2^52 |
| Limbs51.ScalarProduct | sodiumpp/include/sodiumpp/sodium/private/ed25519_ref10_fe_51.h:492-518 | no overflow for a 32-bit scalar, and the bound on each limb |
| Limbs51.Add | sodiumpp/include/sodiumpp/sodium/private/ed25519_ref10_fe_51.h:32-46 | limb sums without overflow |
| Sha1.BlkIsNextWord | libs/sha1.cpp:51-54 | the word computed from the 16-word window is the next word of the 80-word schedule, which Sha1.ScheduleRotates describes |
| Sha1.RolRotates | libs/sha1.cpp:45-48 | the shifts are rotations by 1, 5 and 30 places |
| Sha1.ScheduleRotates | libs/sha1.cpp:51-54 | from the seventeenth on each word is the exclusive or of four earlier ones rotated by one, bit for bit |
| Sha1.WindowMoves | libs/sha1.cpp:68-97 | overwriting its slot keeps the window the last sixteen words of the schedule |
| Sha1.NextRound | libs/sha1.cpp:61-97 | a step with the roles of the variables given by position is the standard's step |
| Sha1.Rounds0To19 | libs/sha1.cpp:114-133 | the first twenty unrolled calls with rotated names are steps 0 to 19 |
| Sha1.Rounds20To39 | libs/sha1.cpp:134-153 | the next twenty are steps 20 to 39 |
| Sha1.Rounds40To59 | libs/sha1.cpp:154-173 | the next twenty are steps 40 to 59 |
| Sha1.Rounds60To79 | libs/sha1.cpp:174-193 | the last twenty are steps 60 to 79 |
| Sha1.Transform | libs/sha1.cpp:104-204 | the whole transform is the compression of section 6.1.2 of FIPS 180-4, for every digest and block; Sha1Example.HashOfAbc gives it a known answer |
| Sha1.BufferToBlock | libs/sha1.cpp:207-217 | the block is the sixteen big-endian words of the buffer |
| Sha1.SHA1.Update | libs/sha1.cpp:226-249 | the read loop keeps digest and buffer equal to the hash state of everything fed so far |
| Sha1.HashOfShortTail | libs/sha1.cpp:256-284 | a tail of up to 55 bytes is finished by one compression over tail, marker, zeros and length |
| Sha1.HashOfLongTail | libs/sha1.cpp:272-284 | a longer one by two |
| Sha1.SHA1.Final | libs/sha1.cpp:256-298 | returns the hexadecimal hash of the whole message padded as in section 5.1.1, and resets the object |
| Sha1.HashInPieces | libs/sha1.cpp:226-298 | every split of every message into update calls gives the hash of the joined message |
| Sha1.PaddingIsShortest | libs/sha1.cpp:261-267 | no shorter run of zero bytes would do |
| Sha1.HexIsFaithful | libs/sha1.cpp:286-292 | two digests with the same text are equal |
| Sha1Example.HashOfAbc | libs/sha1.cpp:104-298 | the hash of "abc" is a9993e364706816aba3e25717850c26c9cd0d89d, so every constant and the initial value are those of the standard |
| Snowhouse.Evaluator.EvaluateOperatorsWithLessOrEqualPrecedence | sodiumpp/include/bandit/assertion_frameworks/snowhouse/snowhouse/fluent/operators/constraintoperator.h:50-64 | the loop pops exactly the operators the specification settles, or raises where it does |
| Snowhouse.Evaluator.PerformOperation | sodiumpp/include/bandit/assertion_frameworks/snowhouse/snowhouse/fluent/operators/andoperator.h:24-37 | each operator takes its operands off the result stack, or raises on too few |
| Snowhouse.Evaluator.EvaluateConstraintList | sodiumpp/include/bandit/assertion_frameworks/snowhouse/snowhouse/fluent/expressionbuilder.h:14-21 | the walk over the list is the specified run |
| Snowhouse.Evaluator.AssertThat | sodiumpp/include/bandit/assertion_frameworks/snowhouse/snowhouse/assert.h:28-58 | the assertion passes, fails or reports a malformed expression as specified |
| Snowhouse.SettleTwice | sodiumpp/include/bandit/assertion_frameworks/snowhouse/snowhouse/fluent/operators/constraintoperator.h:50-64 | settling up to a low precedence and then up to a higher one is settling up to the higher one |
| Snowhouse.ParseShows | sodiumpp/include/bandit/assertion_frameworks/snowhouse/snowhouse/fluent/expressionbuilder.h:24-45 | every well-formed list is the text of the expression it is parsed to |
| Snowhouse.EvaluationIsParsing | sodiumpp/include/bandit/assertion_frameworks/snowhouse/snowhouse/assert.h:31-52 | for every well-formed list evaluation ends with exactly one result, the value of the expression parsed with Not over And over Or, and raises nothing |
| Snowhouse.SecondNotNegatesTheLeft | sodiumpp/include/bandit/assertion_frameworks/snowhouse/snowhouse/fluent/operators/notoperator.h:14-22 | behind any list and And or Or, two Nots negate the result on the left and keep one Not for what follows, or raise when there is no result |
| Snowhouse.TwoNotsRightExactly | sodiumpp/include/bandit/assertion_frameworks/snowhouse/snowhouse/assert.h:31-52 | for every well-formed list, And or Or, operand, and whatever goes on behind it, the verdict with two Nots before the operand is the one without them: behind Or if and only if a later disjunct holds, or the two sides differ and what And joins to the operand holds; behind And if and only if they differ, or another disjunct holds, or what And joins behind fails |
| Snowhouse.LeadingNotsAreMalformed | sodiumpp/include/bandit/assertion_frameworks/snowhouse/snowhouse/fluent/operators/notoperator.h:24-35 | two Nots in front are refused, whatever follows |
| Snowhouse.TooFewOperandsAreMalformed | sodiumpp/include/bandit/assertion_frameworks/snowhouse/snowhouse/assert.h:31-52 | any list with no more operands than binary operators is refused, whatever its order |
| Snowhouse.UnjoinedOperandIsIgnored | sodiumpp/include/bandit/assertion_frameworks/snowhouse/snowhouse/assert.h:44-52 | an operand in front of any list that is not refused changes nothing: only the last result counts |
| Z85.Div85IsDivision | sodiumpp/z85/z85.c:42-46 | the magic multiplication and shifts are division by 85 for every 32-bit number |
| Z85.DigitsAreUnique | sodiumpp/z85/z85.c:85-95 | the five digits are the only base-85 form of the number |
| Z85.SymbolsReadBack | sodiumpp/z85/z85.c:48-75 | the decoding table inverts the symbol table |
| Z85.EncodeUnsafe | sodiumpp/z85/z85.c:77-98 | the loop writes the encoding of the source range at its place and nothing else |
| Z85.DecodeUnsafe | sodiumpp/z85/z85.c:100-123 | the loop writes the decoding at its place and nothing else |
| Z85.DecodedEncoded | sodiumpp/z85/z85.c:77-123 | decoding undoes encoding for whole frames |
| Z85.EncodeWithPadding | sodiumpp/z85/z85.c:170-201 | writes the mark, the frames and the zero-filled tail, as many bytes as the bound says |
| Z85.DecodeWithPadding | sodiumpp/z85/z85.c:203-248 | writes the decoded bytes, or nothing for a wrong size or mark, for every text that is read inside itself and the table |
| Z85.ReadsInsideExactly | sodiumpp/z85/z85.c:203-248 | every read lies inside text and table if and only if the size or the mark is wrong, or there is a frame and every character behind the mark has an entry in the table |
| Z85.OneCharacterReadsOutside | sodiumpp/z85/z85.c:225-232 | a mark alone is read outside the text exactly when it is a good one |
| Z85.BadByteReadsOutside | sodiumpp/z85/z85.c:61-75 | any byte below 32 or from 128 to 159 in a text of proper size and mark is read past the table |
| Z85.PaddingRoundTrip | sodiumpp/z85/z85.c:170-248 | decoding undoes encoding for every byte string of every length |
| Z85.BoundsAreExact | sodiumpp/z85/z85.c:125-168 | the encoding bounds, and the decoding bound of an encoded text, are the exact numbers of bytes |
| Z85.DecodeWithPaddingBoundIsExact | sodiumpp/z85/z85.c:164-168 | the decoding bound is exact for every text of proper size that is read inside |
| TextExamples.HelloWorld | sodiumpp/z85/z85.c:77-98 | the example of the ZeroMQ RFC: eight bytes are written as HelloWorld |
| Nonces.NextAddsTwo | sodiumpp/include/sodiumpp/sodiumpp.h:378-389 | an increment adds two to the sequential part, keeps the constant part, and sets the overflow exactly on wrap |
| Nonces.Nonce.Make | sodiumpp/include/sodiumpp/sodiumpp.h:332-347 | the first value, from a given, random or zero constant part, or the exception for a constant part of the wrong size |
| Nonces.StartExactly | sodiumpp/include/sodiumpp/sodiumpp.h:332-347 | the first value has the given or the random constant part, and counts from 1 for uneven nonces and from 0 for even ones |
| Nonces.GreaterExactly | sodiumpp/include/sodiumpp/sodiumpp.h:461-463 | keys compare by the first byte at which they differ, or by length when one begins the other |
| Nonces.Nonce.Increment | sodiumpp/include/sodiumpp/sodiumpp.h:378-389 | the carry loop is the specified increment |
| Nonces.NthCounts | sodiumpp/include/sodiumpp/sodiumpp.h:378-408 | after k increments the value is the first plus 2k, and reading fails exactly from the wrap on |
| Nonces.NoNonceRepeats | sodiumpp/include/sodiumpp/sodiumpp.h:378-408 | no value that can be read comes twice |
| Nonces.ParityStays | sodiumpp/include/sodiumpp/sodiumpp.h:378-389 | the parity of the last byte never changes, not even on wrap |
| Nonces.DirectionsShareNoNonce | sodiumpp/include/sodiumpp/sodiumpp.h:461-482 | two directions between distinct keys never share a nonce, whatever their constant parts and however long they run |
| Nonces.SharedExactlyForOneKey | sodiumpp/include/sodiumpp/sodiumpp.h:461-482 | with one constant part they do exactly when the two keys are one |
| Nonces.Boxer.SealNext | sodiumpp/include/sodiumpp/sodiumpp.h:477-482 | seals under the current nonce and moves on, or does nothing when it has overflowed |
| Nonces.Unboxer.OpenNext | sodiumpp/include/sodiumpp/sodiumpp.h:535-539 | opens under the current nonce and moves on only when the box opens |
| Nonces.TakeKeepsLockstep | sodiumpp/include/sodiumpp/sodiumpp.h:520-539 | every step of either end, forged boxes included, keeps each end at the nonce of the messages it has handled |
| Nonces.MessagesArrive | sodiumpp/include/sodiumpp/sodiumpp.h:461-539 | an unboxer that is given the boxer's constant part starts at its nonce, and over every run the messages read are a prefix of those sent and no nonce is used twice |
| Nonces.StartsAgreeExactly | sodiumpp/include/sodiumpp/sodiumpp.h:332-347 | given one constant part, both ends start at the same nonce if and only if it is not empty or they draw the same random one |
| Nonces.NothingArrives | sodiumpp/include/sodiumpp/sodiumpp.h:461-539 | two ends that draw different ones never exchange a message, over every run, when a box opens under no nonce but its own |
| Framing.Connection.ReadDataIntoBuffer | Network/connection.cpp:241-259 | the byte loop reads up to and with the next space |
| Framing.Connection.ReadProtocolHeader | Network/connection.cpp:284-334 | the header step, with its abort on an unknown token |
| Framing.Connection.HasEnoughData | Network/connection.cpp:340-358 | the length step, which may need several arrivals |
| Framing.Connection.ProcessReadyRead | Network/connection.cpp:156-207 | the handler with its greeting states and its do-while loop is the specified step |
| Framing.LengthAt | Network/connection.cpp:266-277 | a length that arrives in parts is put together |
| Framing.LoopAt | Network/connection.cpp:198-206 | from any point of a stream the loop hands on every message that has arrived, and aborts exactly when what has arrived ends inside a token |
| Framing.FramingIsExact | Network/connection.cpp:156-466 | a greeting and any messages, cut into any pieces: the connection aborts if and only if a piece ends inside a token, and otherwise hands on every message once, in order and whole |
| FramingRules.FirstWordGreets | Network/connection.cpp:156-167 | the first word of a connection opens it if it is the greeting's token, and aborts it otherwise, another token too |
| FramingRules.UnknownWordAborts | Network/connection.cpp:284-334 | between messages a word that is no token aborts the connection and hands on nothing |
| FramingRules.EndlessLengthAborts | Network/connection.cpp:241-259 | a length that fills the buffer without a space aborts it when more arrives |
| FramingRules.NoLengthIsSkipped | Network/connection.cpp:340-358 | a length of 0 or less is dropped, and the next word is taken for the length |
| FramingRules.AbsorbExactly | Network/connection.cpp:241-259 | one read takes the bytes up to and with the first space, or all, or as many as the buffer takes |
| FramingRules.DecimalExactly | Network/connection.cpp:120-126 | a length is sent in decimal digits without leading zeros |
| TextExamples.SentMessage | Network/connection.cpp:120-145 | one message on the wire, letter by letter |
| Base64.RoundTrip | sodiumpp/base64.cpp:2-51 | decoding gives back every byte that encoding read, and the text holds no comma |
| Base64.Encode | sodiumpp/base64.cpp:2-25 | the loop reads whole groups of three bytes, past the end of the buffer for the last one |
| Base64.Decode | sodiumpp/base64.cpp:27-51 | the loop is the specified decoding for every text that is read inside itself, its end included, and inside the table: for three characters more than whole groups the character behind the end is read too |
| Base64.EndCountsAsSlash | sodiumpp/base64.cpp:27-51 | for three characters more than whole groups the result is that of the text with a slash behind it |
| TextExamples.SixBytes | sodiumpp/base64.cpp:2-25 | six bytes are written as in section 9 of RFC 4648 |
| BlockText.TxRoundTrip | helperfunctions.cpp:13-30 | a printed transaction is parsed to itself, inputs included, with its separate count of inputs set to 0 |
| BlockText.BlockRoundTrip | helperfunctions.cpp:4-109 | parsing a printed block with separator-free fields and 32-bit index, timestamp, fork id and values gives back its fields, the eight bytes of the lucky number and the fork id, whatever byte lay behind the number in memory |
| BlockText.PrintBlock | helperfunctions.cpp:4-43 | the appending loops print the specified text |
| TextExamples.PrintedBlock | helperfunctions.cpp:4-43 | one block with one transaction, letter by letter |
| BlockText.ParseBlock | helperfunctions.cpp:45-109 | the splitting loops parse as specified, or read past a list where the text is too short |
| BlockText.WithoutInputs | helperfunctions.cpp:45-109 | a transaction that ends behind its timestamp is parsed and has no inputs |
| BlockText.WithoutLastComma | helperfunctions.cpp:45-109 | a block whose last comma is missing is parsed like the whole one |
| BlockText.BlockArrives | Network/connection.cpp:420-427 | a block sent over a connection in any pieces that cut no token arrives as the same block |
| Arguments.Shift | sodiumpp/include/bandit/external/optionparser.h:1344-1352 | one argument is rotated in front of those before it |
| Arguments.HandleOption | sodiumpp/include/bandit/external/optionparser.h:1552-1664 | one option argument is recognised as specified, and it and its detached argument move in front of the non-options |
| Arguments.SelectsAreAll | sodiumpp/include/bandit/external/optionparser.h:1344-1352 | the final order holds the same arguments |
| Arguments.MarksMean | sodiumpp/include/bandit/external/optionparser.h:1506-1685 | in gnu mode what is used up is an option or directly follows one, and what is left is a non-option or stands behind the terminator |
| Arguments.PosixStops | sodiumpp/include/bandit/external/optionparser.h:1506-1685 | outside gnu mode what is used up is a run of options and what directly follows them at the front, and the scan stops at the first argument that is neither, or behind the terminator |
| Arguments.Workhorse | sodiumpp/include/bandit/external/optionparser.h:1506-1685 | for every argument vector the loop ends with a stable partition: what was used up in its order, then the rest in its order as the slice handed on; a refused option still leaves a permutation |
| ArgumentRules.FindLongExactly | sodiumpp/include/bandit/external/optionparser.h:1568-1592 | a long option means the first entry with its name; without one and with abbreviations allowed, the entry that it abbreviates if there is exactly one; else none |
| ArgumentRules.StreqExactly | sodiumpp/include/bandit/external/optionparser.h:1282-1289 | a long option fits a name if and only if it is the part before the first equals sign |
| ArgumentRules.AbbreviatesExactly | sodiumpp/include/bandit/external/optionparser.h:1314-1324 | a name abbreviates it if and only if that part begins it and is long enough, or is all of it |
| ArgumentRules.FindShortExactly | sodiumpp/include/bandit/external/optionparser.h:1612-1614 | a short option means the first entry that lists it |
| ArgumentRules.FindDummyExactly | sodiumpp/include/bandit/external/optionparser.h:1625-1632 | an unknown one means the first entry without any name |
| ArgumentRules.ActedExactly | sodiumpp/include/bandit/external/optionparser.h:1623-1663 | an option without an entry is skipped; any other ends the parse if and only if its check or the action refuses it, and is handed on otherwise, with an argument if and only if the check takes one |
| ArgumentRules.ShortsExactly | sodiumpp/include/bandit/external/optionparser.h:1607-1665 | in a group each short option is acted on with what lies behind it, up to the first that takes an argument or is refused |
| ArgumentRules.OptionExactly | sodiumpp/include/bandit/external/optionparser.h:1545-1604 | two minuses begin a long option, one does if allowed and an entry is meant; its argument is what stands behind the first equals sign, or the next argument |
| ArgumentRules.ScanExactly | sodiumpp/include/bandit/external/optionparser.h:1518-1543 | a non-option is passed over in gnu mode and ends the scan otherwise, as the terminator does; an option is parsed with the argument directly behind it, and the scan goes on behind what it took |
| UsageRows.LinePartIterator.UpdateLength | sodiumpp/include/bandit/external/optionparser.h:1935-1958 | the length runs to the next separator, over multi-byte characters |
| UsageRows.LinePartIterator.Next | sodiumpp/include/bandit/external/optionparser.h:2056-2122 | the re-scanning loop ends and moves to the next part in order: the same line of the next column, an empty part where a cell has too few lines, then the next line |
| UsageRows.LinePartIterator.Parts | sodiumpp/include/bandit/external/optionparser.h:2056-2122 | calling it until it fails gives every line with one part for each column, (most breaks + 1) times columns in all |
| UsageRules.LineIsInside | sodiumpp/include/bandit/external/optionparser.h:1935-1958 | every part lies in the text and holds no separator |
| UsageRules.CellIsItsLines | sodiumpp/include/bandit/external/optionparser.h:2056-2122 | a cell is its lines with vertical tabs between them |
| UsageRules.RowIsItsCells | sodiumpp/include/bandit/external/optionparser.h:2056-2122 | a row is its cells with tabs between them, up to the first newline or the end |
| UsageRules.MostIsReached | sodiumpp/include/bandit/external/optionparser.h:2056-2122 | the number of lines of a row is one more than the vertical tabs of some cell, and no cell has more |
| LineWrap.PiecesFit | sodiumpp/include/bandit/external/optionparser.h:2318-2390 | every piece fits the column width on screen |
| LineWrap.PiecesRebuild | sodiumpp/include/bandit/external/optionparser.h:2318-2390 | the pieces in order are the text again, up to one dropped space behind a piece |
| LineLayout.CutExactly | sodiumpp/include/bandit/external/optionparser.h:2318-2390 | a text is cut if and only if it does not fit: before the last space up to and with the end of the longest part that fits, which is dropped, or at that end when there is none |
| LineLayout.CodeOfUtf8 | sodiumpp/include/bandit/external/optionparser.h:2334-2350 | every character of two to six bytes is read as its code |
| LineLayout.BytesOfUtf8 | sodiumpp/include/bandit/external/optionparser.h:2334-2350 | and its bytes are taken together when no further continuation byte follows |
| LineLayout.WideExactly | sodiumpp/include/bandit/external/optionparser.h:1855-1879 | such a character takes two columns if and only if it lies in one of the listed ranges and is not the one exception |
| LineLayout.LoneBytes | sodiumpp/include/bandit/external/optionparser.h:2335-2337 | any other byte stands for itself, in one column |
| LineWrap.LineWrapper.Store | sodiumpp/include/bandit/external/optionparser.h:2236-2259 | a full ring writes its oldest piece first, so nothing is overwritten |
| LineWrap.LineWrapper.WriteOneLine | sodiumpp/include/bandit/external/optionparser.h:2264-2280 | writes the oldest piece, on a new indented line when this one is used, and keeps the order of everything stored |
| LineWrap.LineWrapper.Process | sodiumpp/include/bandit/external/optionparser.h:2318-2393 | stores exactly the pieces of the text in order, and writes one line, or as many as a full ring forces out, with the line breaks and indents between them |
| LineWrap.LineWrapper.Flush | sodiumpp/include/bandit/external/optionparser.h:2288-2298 | writes what is left in order, every line indented, with a line break at the end |
| LineWrap.WrapColumn | sodiumpp/include/bandit/external/optionparser.h:2192-2407 | over any texts processed and then flushed the pieces written are those of every text in order, with a width of at least 2 |
| LineLayout.ProcessedIs | sodiumpp/include/bandit/external/optionparser.h:2318-2393 | a processed text puts the oldest pieces out as lines, as many as do not fit the ring and one at least, the first at the current place and the others on new, indented lines |
| LineLayout.FlushedIs | sodiumpp/include/bandit/external/optionparser.h:2288-2298 | flushing puts all waiting pieces out as indented lines, and a line break behind them |

## Left out

- Ledger.ReplaceThenLoad: does not model the numTrans column, which received blocks never fill in, nor failing SQL statements.
- Verification.AdoptionKeepsLinks: says nothing about a fork shorter than main, because adoption never deletes the blocks above it and they then hang on a replaced one.
- Verification.VerifiedBlockMeaning: payments of one sender within one block are checked one by one against the balance before it, so it does not promise balances that stay non-negative.
- ForkChoice.AdoptionImproves: needs non-negative lucky numbers and a fork that does not start at index 0, which the program treats as not yet set; values are exact, without rounding.
- Node.RunNeverReturns: a fork id in a message is 0 or names an existing fork; the program's statement on a stale id fails in SQL.
- Sync.SyncEqualizesChains: one peer with a fixed chain and no message in between.
- Client.Responder.SendBlockResponse: the fields of the empty block object sent for a missing block, which are never set, are left out, as are locks and the console.
- Adoption.RunVerifiesExactly: needs adopted forks whose blocks name a previous hash and that reach main's tip; an adopted shorter fork leaves old blocks above it.
- Packing.Mempool.PutTxInBlock: the inputs recorded on a packed transaction are those of the last list it was given, as in the program; conservation is stated for charged outputs. Values are unbounded integers.
- Enclave.ProofsDoNotOverlap: for a counter that already exists; creating keys and counter on the first start, sealing, and the certificate itself are not modelled.
- Limbs25.SqDouble: fe25519_scalar_product with ten limbs is left out because its bounds depend on a limit that the code does not state.
- Limbs51.ScalarProduct: the five products are taken before the carries instead of alternating with them.
- Sha1.SHA1.Update: the stream is the bytes it holds; files are not modelled.
- Snowhouse.EvaluationIsParsing: collection operators are left out, and an operand is what its constraint answers.
- Z85.DecodeWithPadding: what a read outside the text or the table gives is left out.
- Base64.Decode: the same, for a text of one or two characters more than whole groups and for characters from 128 on.
- Z85.EncodeWithPadding: sizes are unbounded, so size_t overflow in the bounds is left out, as are null pointers.
- Nonces.MessagesArrive: a forged box is one that the next nonce does not open; the cipher itself is a parameter.
- Framing.FramingIsExact: timers, pings and the socket calls are left out, and a closed connection ignores input; messages are not empty, since a length of 0 is read as missing.
- BlockText.ParseBlock: reading past the end of a list or table is one outcome, None.
- Arguments.Workhorse: the number of arguments is known and none is null, so counting up to a null entry is left out, as are the two ready-made actions.
- UsageRows.LinePartIterator.UpdateLength: the screen width of a part is left out; widths are modelled in LineWrap.
- LineWrap.LineWrapper.Process: a first byte of 0xFF, for which the program's bit count is undefined, counts as a narrow character.
- Qt sockets, threads and mutexes, the user interface, printing of chains, libsodium and SGX calls, and the Merkle tree.
- The column widths that printUsage computes, and moving between usage tables and rows.
