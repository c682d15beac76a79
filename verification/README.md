# A model of go-plasma's trees and state machine

This project models the parts of go-plasma on which its promises rest, and proves what those
parts keep over all inputs and all runs.

- **Sparse Merkle tree** (`Bytes`, `Keys`, `PlainTree`, `ProofCheck`, `Tries`, `TrieRoot`,
  `ProofGen`, `ProofShape`, `Chunk`, `History`, `Node`, `SparseMerkleTree`): a mutable 16-way trie over 8-byte
  keys that stands for a binary hash tree of depth 64, with lazy splitting and loading, four-level
  hash caches, compact proofs and content-addressed chunks. The plain tree is written down on its
  own, and the trie, the caches, the proofs and the chunks are each proved against it. `Node` and
  `SparseMerkleTree` are the in-place code; the other modules say on values what it computes.
  `History` follows a tree and its store through every run of writes, flushes and openings.
- **Plasma state machine** (`Plasma`, `Ownership`, `Ledger`, `Anchoring`, `Journal`, `State`,
  `Apply`, `Minting`, `Pool`, `Minter`, `MintedChain`, `Effects`, `Intake`, `Bloom`, `Witnesses`): deposits,
  transfers and layer-3 anchors checked into a pool, applied to pending objects with a journal and
  snapshots, committed to storage, and minted into blocks. `State`, `Apply`, `Pool` and `Minter` are
  the in-place code, proved to do what `Plasma`, `Journal` and `Minting` say on values. `Ledger`
  runs those values through any sequence of tried transactions, anchors, sealed blocks and dropped
  blocks, whatever order a block stores its accounts in. `Effects`, `Anchoring` and `Intake` say in the
  fields of tokens, accounts, chains and transactions what is accepted, what it does, and what a pool of
  anchors mints. `MintedChain.Operate` follows a node from
  its start, up to a panic if there is one: whatever is sent to it, its chain stands where a run of
  the ledger ends that rejects nothing late, so what holds of those runs holds of the chain, its
  blocks and their bloom filters.
- **Both together** (`Roots`, `Commits`, `ZeroKey`): which roots a commit writes into a header, what
  the next block opens at those roots, and which lookups in an opened tree panic. The state machine
  keeps its stored state as maps; these modules say when the trees hold those maps.
- **Array Merkle tree** (`ArrayMerkle`) and **speculative chain** (`Speculative`).

Each file holds the module of its name, but for `Node` (module `NodeTree`), `SparseMerkleTree`
(module `SparseMerkle`) and `Minter` (module `Mint`).

Conventions:

- The hash function is a parameter `h` with 32-byte results. Where the absence of collisions is
  needed it is assumed of the inputs that are hashed, and that set is written out (`TreeInputs`,
  `ChunkSet`, `CheckInputs`, `ProofInputs`), because no function to 32 bytes is injective on all
  byte strings. Reading chunks back also assumes that no chunk hashes to zero (`NoZeroHash`), since
  a zero hash in a row means that there is no child.
- Tokens are 64-bit and wrap as in the source; account totals are unbounded, as the source's big
  integers are; block numbers are unbounded.
- `Option`, `Result`, `Panic` and `ok` results stand for the source's error returns and panics.
- Ghost parameters named `c`, `v`, `now`, `was` and `all` name the stored state, the pending view,
  the view afterwards, the head and the pool that a contract speaks of.

What the code does not promise, and exactly when it does:

- A value equal to the hash of the empty string reads as an empty leaf. Two maps of words have one
  root exactly when their leaves are the same (`PlainTree.RootIff`). An old root opens to what the
  latest flushed trie with its root holds, so to its own values exactly when that trie has the same
  ones (`History.OldRootExactIff`); `History.LostRoot` is a run of two flushes that loses one.
- What can be proved for a key are the cuts of the pair of bytes hashed above its leaf
  (`ProofCheck.AcceptedIff`), so proofs are sound for values of the length of that leaf, and of more
  than the pair, and for no other length (`ProofCheck.SoundLengths`).
- The root can be computed, and a tree flushed, exactly when no two keys share their first 60 bits;
  otherwise the code panics (`NodeTree.Node.ComputeMerkleRoot`, `TrieRoot.RootableIff`,
  `SparseMerkle.SparseMerkleTree.Flush`).
- A saved tree reads back exactly when no key is zero and every value is a nonzero word
  (`Chunk.RoundTripIff`). A lookup that runs into the key zero panics (`ZeroKey.LoadsIff`), and so
  does every later flush. A commit therefore opens as what was committed exactly when none of its
  keys is zero (`Commits.CommitOpens`).
- A deposit that is named by the wrong token is turned down only after the token is registered, if
  it is applied directly. Undoing it leaves the token behind: ownership and exact rollback hold
  exactly when this does not happen (`Ownership.TriedKeepsIff`, `Minting.RejectedIff`,
  `Witnesses.LateWitness`). The checks in front of the pool turn such deposits away
  (`MintedChain.Operate`, `Mint.CommitTransaction`).
- An account with a negative balance does not encode; the error is dropped and the hash of nothing
  stored. An account under the key zero is never read back. So a commit keeps ownership and sums
  exactly when no pending account that lists a token is one of those (`Ownership.CommitKeepsIff`), and
  a run does all along exactly when it rejects nothing late and every block stores such accounts
  (`Ledger.RunOwnedIff`). Balances are never negative where no transfer raises one
  (`Ledger.RunExact`); `Witnesses.LostWitness` and `Witnesses.ZeroWitness` are runs that lose accounts.
- A transfer may state less spent than the token has. It keeps the token's amounts adding up
  exactly when it does not also change the balance (`Ledger.EquationIff`,
  `Witnesses.UnspendWitness`); otherwise the token can never be transferred again
  (`Ledger.Conserved`).
- A pending account's balance is exactly the sum over its tokens as long as no transfer raises a
  token's balance, and otherwise that sum only modulo 2^64 (`Ownership.RaiseBreaksExactness`,
  `Witnesses.RaiseWitness`).
- Going back to an older snapshot restores it exactly when no transaction has entered since
  (`Minting.RestoredIff`): tokens, flags and anchors stay (`State.StateDB.RevertToSnapshot`).
- Undoing a change of a chain's anchored range is exact only when the range was one block
  (`Journal.RangeUndoneIff`); the minter never undoes one.
- Storing accounts gives one result, and one header, in every order exactly when pending accounts with
  the same last eight address bytes have the same contents, or none of them encodes
  (`Plasma.StoreOrderIff`, `Commits.HeaderOrderIff`).
- The comment above the commit loop says that a failing transaction is dropped and the next ones
  are tried. The code tries the failing one again until the count runs out, so what it commits is
  the longest prefix that applies (`Mint.CommitTransactions`).
- A generated proof leaves out a sibling that is a default hash only at the top four heights; below them
  it lists every sibling beside a node on the way (`ProofShape.ProofBits`).
- The array tree's proof of a leaf paired with padding is turned down (`ArrayMerkle.CompleteIff`).

## Model

| member | source | states |
|---|---|---|
| Bytes.BigEndianRoundTrip | smt/utils.go:28-32 | eight-byte big-endian encoding loses nothing |
| Bytes.EightBytes | smt/utils.go:28-32 | the most significant of the eight bytes comes first, and encoding undoes decoding |
| Keys.PathPiece | smt/node.go:22-28 | the i-th half-byte taken from a key is the i-th group of four bits of its path from the root |
| Keys.PathInjective | smt/node.go:22-28 | different keys have different paths of 64 bits |
| PlainTree.ComputeDefaultHashes | smt/utils.go:12-19 | the loop fills the table with the hashes of empty subtrees of heights 0 to 63 |
| PlainTree.NumberedTree | smt/node.go:109-224 | node x of a layer is the hash of nodes 2x and 2x + 1 of the layer below, in that order, and leaf x is what the map holds for the eight bytes of x, or the hash of nothing |
| PlainTree.PlainRootEmpty | smt/utils.go:12-19 | a subtree without keys has the default hash of its height |
| PlainTree.PlainRootSingle | smt/node.go:152-176 | a subtree with one key has the hash the terminal loop computes from that key's bits and default hashes |
| PlainTree.RootIff | smt/proof.go:18-65 | without collisions two maps of 32-byte values have one root exactly when every key has the same leaf in both, an absent key having the hash of the empty string |
| PlainTree.RootIffPairs | smt/proof.go:18-65 | for values of any length, exactly when every two neighbouring leaves read the same one after the other |
| PlainTree.EmptyMarkInvisible | smt/utils.go:12-19 | storing the hash of the empty string at a free key does not change the root |
| PlainTree.NeverTallerDefault | smt/node.go:85-103 | whatever its values, a subtree with an empty leaf never has the default hash of a taller subtree |
| ProofCheck.Check | smt/proof.go:18-65 | the loop accepts exactly when 64 hashing steps with listed and default siblings give the root; running out of listed siblings is a panic |
| ProofCheck.CheckExact | smt/proof.go:18-65 | a check panics exactly when fewer siblings are listed than bits are set, and else accepts exactly when hashing the value upwards, on the side the key's bit says, with the listed sibling of each set bit and the default hash of each clear one, ends in the root |
| ProofCheck.ProofSound | smt/proof.go:18-65 | without collisions, in a tree with values of any lengths, what is accepted for a key and has the length of the key's value, or of the empty leaf if the key is absent, is that |
| ProofCheck.ProofBinding | smt/proof.go:18-65 | without collisions, two values of one length accepted for one key and root are equal |
| ProofCheck.AcceptedIff | smt/proof.go:18-65 | of any tree, what some proof is accepted with for a key are exactly the cuts, on the side of the key, of the pair of bytes hashed above its leaf |
| ProofCheck.CutAccepted | smt/proof.go:18-65 | the proof for such a cut, which makes the check hash nothing the tree does not hash |
| ProofCheck.LongRejected | smt/proof.go:18-65 | without collisions no value longer than the pair above the leaf is accepted |
| ProofCheck.SoundLengths | smt/proof.go:18-65 | only the true leaf is accepted for a length exactly when it is the leaf's own or more than that of the pair above it |
| ProofCheck.SoundWords | smt/proof.go:18-65 | in a tree of 32-byte values these are the lengths 32 and above 64 |
| Tries.InsertFind | smt/node.go:254-305 | after an insert, with splits of terminals, a lookup of any key finds what the map with that entry replaced holds |
| Tries.TrieRefinesMap | smt/node.go:254-305 | over every sequence of inserts the trie and the finite map agree on every key |
| Tries.RunCharges | smt/node.go:278-286 | over every sequence of inserts a key has the value last written to it and the storage, modulo 2^64, of all the writes that changed its value |
| Tries.RunStamps | smt/node.go:278-286 | and the block number of the last write that changed its value |
| Tries.RunKeeps | smt/node.go:278-286 | writing a value a key already has changes nothing of it |
| Tries.InsertSummed | smt/node.go:296-304 | after an insert every node on the path has storage bytes equal to the sum over the terminals beneath it, modulo 2^64, given that of its children |
| Tries.WriteAllSummed | smt/node.go:296-304 | over every sequence of inserts, into a new or a reopened trie, all branches carry the sum over the terminals beneath them, the root from the first insert on |
| Tries.WriteAllCrowded | smt/node.go:254-305 | over every sequence of inserts a branch below the root has two children or one that is a branch, so it stands for at least two keys |
| TrieRoot.RootRefines | smt/node.go:109-224 | the root computed through 16-way nodes, four-level caches and terminal shortcuts is the root of the plain tree of depth 64 |
| TrieRoot.CacheRefines | smt/node.go:109-147 | every cached hash is the plain tree's hash at the path it stands for |
| TrieRoot.RootOfWrites | smt/node.go:149-224 | after any inserts the root is the plain root of the values written |
| TrieRoot.RootOrderIndependent | smt/node.go:254-305 | insert sequences that write the same values give the same root, whatever their order and block numbers |
| TrieRoot.RootableIff | smt/node.go:157-160 | no terminal sits below level zero, where the loop would run away, exactly when no two keys share 60 bits |
| ProofGen.ProofComplete | smt/node.go:65-107 | without collisions, and for values of any length, the proof generated for a key of the tree, with siblings listed or left out by the root's default table, is accepted with the key's value |
| ProofShape.ProofShape | smt/node.go:65-107 | a generated proof lists the siblings of the set bits from the bottom up, and a bit is set exactly when the way to the key passes a node at that height, the top one or one where two keys meet, and the sibling is not the default hash of the same place in the top node |
| ProofShape.ProofBits | smt/node.go:65-107 | so without collisions siblings are left out by being default hashes at the top four heights only, and below exactly where no two keys meet |
| Chunk.RowRoundTrip | smt/node.go:327-342 | decoding an 88-byte row gives back the key, hash, byte count, root and block number it was made of |
| Chunk.ChunkLayout | smt/node.go:375-404 | child j has its key, zero for a node, at byte 88j of its parent's chunk, its value or the hash of its own chunk at 8 further, its storage at 40, its root at 48 and its block number at 80; a free slot and the rest of the chunk are zero |
| Chunk.ReadRow | smt/node.go:378-404 | row j of a node's chunk decodes to what was saved of child j, and a free slot to the hash that means no child |
| Chunk.StoredStays | smt/node.go:405-421 | a saved trie stays saved in any later store that keeps its chunks |
| Chunk.ZeroKeyLost | smt/node.go:323-338 | the all-zero key is never read back from chunks |
| Chunk.RoundTripIff | smt/node.go:309-348 | a saved trie answers every lookup as in memory exactly when no key is zero and every value is a nonzero 32-byte word |
| History.FlushStores | smt/smt.go:47-52 | a flushed trie, whatever its values, is kept in the store and mapped from its root |
| History.FlushSaves | smt/smt.go:47-52 | whatever its values, a flushed trie is saved and its root mapped to its top chunk |
| History.FlushInv | smt/node.go:427-435 | a flush keeps every kept trie in the store, and each root mapped to the latest trie that has it |
| History.RunInv | smt/smt.go:31-52 | so it is after every run of inserts, flushes and opens of any roots |
| History.OldRootsReadable | smt/smt.go:31-52 | after every run of inserts of any values, flushes and opens of any roots, each flushed root opens to exactly the items of the latest flushed trie with that root, if that one can be read back at all |
| History.OldRootExactIff | smt/smt.go:31-52 | whatever else was flushed, it opens to the pairs of leaves it had, to its leaves if those were words, and to the values it had exactly when that latest trie has them |
| History.OldRootsExact | smt/smt.go:31-52 | so a root opens to exactly its values when the tries with its root can be saved and none has the hash of the empty string as a value |
| History.FlushExactIff | smt/smt.go:47-52 | a flush of a trie that can be saved keeps all earlier roots exact exactly when no earlier flushed trie has its root and other values |
| History.ExactSavable | smt/node.go:309-348 | a root opens to its own values only if those can be saved |
| History.LostRoot | smt/smt.go:47-52 | a run of two flushes after which the first root opens to a key it did not hold |
| History.RunSummed | smt/smt.go:31-52 | after every run of writes, flushes and openings of roots that can be read back all branches below the root carry their storage totals, and after a write so does the root |
| NodeTree.Node.Load | smt/node.go:309-348 | loading replaces a stand-in by children read from its chunk without changing the trie the node stands for |
| NodeTree.Node.Insert | smt/node.go:254-305 | the in-place insert turns the node's trie into the inserted one, loading and splitting on the way |
| NodeTree.Node.Get | smt/node.go:350-373 | the in-place lookup finds exactly what the trie holds, with its byte count and block number |
| NodeTree.Node.ComputeMerkleRootCache | smt/node.go:109-147 | the filled cache is the plain tree's top four levels below the node, when the children's roots are current |
| NodeTree.Node.TerminalRoot | smt/node.go:152-176 | with the level taken as an unsigned number, the loop computes the hash of a lone key in a subtree of its height, and panics exactly when the level is not one of 0 to 63 |
| NodeTree.Node.ComputeMerkleRoot | smt/node.go:149-224 | gets through exactly when no terminal is at level -1; afterwards this node and all nodes below it hold their roots |
| NodeTree.Node.GenerateProof | smt/node.go:65-107 | the in-place walk finds a proof exactly when the key's path does not end in a free slot, and it is the trie's proof when the roots are current |
| NodeTree.Node.Flush | smt/node.go:375-424 | saves the node and the dirty ones below it under the hashes of their chunks; the store only gains chunks of the trie, and the trie stays what it was |
| SparseMerkle.SparseMerkleTree.InitWithRoot | smt/smt.go:31-40 | opens the trie a known root is mapped to, and an empty one otherwise |
| SparseMerkle.SparseMerkleTree.Insert | smt/smt.go:111-114 | the tree's trie becomes the one with the entry written |
| SparseMerkle.SparseMerkleTree.Get | smt/smt.go:89-101 | finds exactly the stored entries, whatever their length; in a flushed or reopened tree the proof that comes with one is accepted against the root |
| SparseMerkle.SparseMerkleTree.Flush | smt/smt.go:47-52 | gets through exactly when no two keys share 60 bits; computes the root, saves all nodes and maps the root to the top chunk |
| SparseMerkle.Reopen | smt/smt.go:31-52 | when the flush gets through, which is exactly when no two keys share 60 bits, a fresh tree opened at its root answers every lookup as the old one does |
| Ownership.ExactlyOnce | plasmachain/backend.go:528-660 | a token is in the account list of its owner, once, and in no other list |
| Ownership.AcceptedKeeps | plasmachain/backend.go:528-660 | accepted deposits and transfers keep each token in its owner's list alone and each account's totals the sums over its tokens |
| Ownership.RaiseBreaksExactness | plasmachain/backend.go:616-632 | a transfer that raises a token's balance makes the recipient's total wrong as a number |
| Ownership.LateBreaks | plasmachain/backend.go:698-701 | a deposit rejected when it is stored leaves a token no account lists |
| Ownership.TriedKeepsIff | plasmachain/backend.go:528-670 | trying a transaction keeps ownership and sums exactly when it is not rejected late, and keeps balances exact exactly when it also raises none |
| Ownership.CommitKeepsIff | plasmachain/statedb.go:149-202 | for addresses that differ in their last eight bytes, a commit in any order keeps ownership and sums exactly when every pending account that lists a token encodes and is not stored under zero |
| Ownership.ExactStorable | plasmachain/statedb.go:379-405 | with exact sums no balance is negative, so a commit loses no account but under the key zero |
| Ledger.PrevBlockChecked | plasmachain/backend.go:563-577 | in every reachable state an accepted transfer names the last block of its token, so the branch for genesis tokens is never taken |
| Effects.TransferIff | plasmachain/backend.go:528-660 | in every tracked ledger a transfer enters the block exactly when its token is stored and not yet in the block, it names the token's last block, owner and denomination, its amounts and the token's add up, it changes the owner, raises what is spent or changes the balance, and its accounts can be read; otherwise nothing changes |
| Effects.TransferDoes | plasmachain/backend.go:591-660 | then the token has the recipient as owner, the stated balance, the larger spent amount, the stated allowance if spent rose or the balance changed, and this block as the last; the two accounts change by the token's list entry and amounts, and nothing else does |
| Effects.PanicIff | plasmachain/backend.go:528-600 | it panics exactly when a lookup does or when it passes and would take the token off an account that cannot be read |
| Effects.DepositIff | plasmachain/backend.go:528-554 | a deposit enters exactly when its token is new, to the block too, its recipient can be read, and it hashes to its token; if only the hash is wrong the token is entered all the same |
| Effects.DepositDoes | plasmachain/backend.go:544-554 | a deposit that enters makes its token, all of it balance, of this block, listed last for the recipient with its amount; one rejected late leaves the account as it was |
| Effects.ReadableIff | plasmachain/statedb.go:338-377 | with nothing stored under zero, an account can be read exactly when it is pending, nothing is stored under its last eight bytes, or what is decodes, and what is read is that |
| Effects.ZeroUnreadable | plasmachain/statedb.go:338-377 | with something stored under zero, looking up an account whose address ends in eight zero bytes, and is not pending, panics |
| Effects.CommitStores | plasmachain/statedb.go:379-405 | a pending account alone under its storage key is stored as it is if neither total is negative, else as nothing that can be read |
| Ledger.RunTracked | plasmachain/backend.go:635-660 | over every run, in whatever order its blocks store accounts, each stored token names the last block that transacted it, and each logged transaction the one before |
| Ledger.TokenHistory | plasmachain/backend.go:1028-1040 | over every run, following previous blocks from a stored token visits exactly the blocks that transacted it, latest first, and only the earliest is a deposit |
| Ledger.PrevBlockOnce | plasmachain/backend.go:563-577 | two transactions of one token never name the same previous block |
| Ledger.EquationIff | plasmachain/backend.go:585-632 | a transfer keeps denomination = balance + allowance + spent modulo 2^64 exactly when it does not lower the spent amount while changing the balance |
| Ledger.ValidIff | plasmachain/tokenobject.go:123-129 | a step keeps that equation for all tokens exactly when it accepts no such transfer |
| Ledger.Conserved | plasmachain/backend.go:579-632 | over every run a stored token stays, keeps its denomination and never becomes less spent; once its amounts do not add up it never changes again |
| Ledger.NextOwnedIff | plasmachain/backend.go:528-670 | a step keeps ownership and sums exactly when it rejects nothing late, raises nothing if the sums are to be exact, and stores its accounts so that they can be read |
| Ledger.RunOwnedIff | plasmachain/backend.go:528-660 | all along a run each token is in exactly its owner's list and every account carries its sums exactly when every step does so |
| Ledger.RunExact | plasmachain/backend.go:616-632 | over every run that rejects nothing late and raises no balance, with no address that ends in eight zero bytes, no account is lost and all sums are exact |
| Ledger.RunApart | smt/node.go:157-160 | over every run of flushed blocks no two stored tokens, accounts or chains have keys that share 60 bits |
| Ledger.RunPopulated | plasmachain/backend.go:635-660 | over every run, where accounts are stored or pending so are tokens, and where anchors are pending so are chains |
| Witnesses.UnspendWitness | plasmachain/backend.go:602-632 | a run from genesis to a token of which half is spent, and a transfer that passes all checks there and breaks the equation |
| Witnesses.HandWitness | plasmachain/backend.go:591-598 | a run from genesis that deposits a token for one account and, in the next block, hands it to another, whose list it is then in, and in no other |
| Witnesses.RaiseWitness | plasmachain/backend.go:616-632 | a run from genesis after which a transfer that raises a balance by five takes 2^64 - 5 off the account |
| Witnesses.LostWitness | plasmachain/statedb.go:379-405 | sealing that transfer loses the account; with an anchor in the block, handing its token on panics and nothing to it is accepted; without one the accounts open empty |
| Witnesses.ZeroWitness | plasmachain/statedb.go:379-405 | a deposit to an address that ends in eight zero bytes, named right and sealed: its account cannot be read, and no block can be flushed after that |
| Witnesses.LateWitness | plasmachain/backend.go:698-701 | one deposit named by the wrong token, applied without the checks in front of the pool, breaks ownership of an empty chain |
| Anchoring.AcceptedOwnersOk | plasmachain/backend.go:379-452 | an accepted anchor leaves at least one owner and no owner twice, whichever way owners are compared |
| Anchoring.AnchorIff | plasmachain/backend.go:367-491 | an anchor enters exactly when it is number 0 of a chain without owners or end, with a signer and no removals, or the next number of a chain that its signer owns, with removals that leave an owner; afterwards the owners are the old ones, or the signer, and those added, the range ends in its number, and no other chain changes |
| Anchoring.RunWellOwned | plasmachain/backend.go:379-452 | over every run each logged anchor other than the first is signed by one of the owners its chain had just then |
| Anchoring.OwnerOrigin | plasmachain/backend.go:379-452 | over every run each owner of a stored chain signed its anchor 0 or was added by an anchor that is the first or that an owner at that time signed |
| Anchoring.RunAnchored | plasmachain/backend.go:367-491 | over every run the anchors of a chain are numbered 0 to its end block without gap or repeat, its start block is the first in the latest block that anchored it, and it has an owner and none twice |
| Journal.AccountUndone | plasmachain/journal.go:183-210 | undoing an account entry restores what was pending, registered or not |
| Journal.RangeUndoneIff | plasmachain/chainobject.go:51-67 | undoing a range entry is exact exactly when first and last block were the same |
| Journal.UndoNested | plasmachain/statedb.go:94-97 | undoing to an inner snapshot and then to an outer one is undoing to the outer one |
| Journal.UndoKeeps | plasmachain/journal.go:145-229 | undoing takes back no token, flag, transaction or anchor and no registration |
| Journal.Search | plasmachain/statedb.go:86-88 | the binary search finds the first snapshot numbered at least as asked |
| State.TokenObject.SetOwner | plasmachain/tokenobject.go:37-43 | changes the owner, logs the old one, and leaves what an earlier mark undoes to |
| State.TokenObject.SetPrevBlock | plasmachain/tokenobject.go:46-52 | likewise for the previous block |
| State.TokenObject.SetBalance | plasmachain/tokenobject.go:54-63 | likewise for balance and allowance |
| State.TokenObject.SetWithdrawal | plasmachain/tokenobject.go:65-75 | likewise for allowance and spent amount |
| State.AccountObject.AddToken | plasmachain/accountobject.go:38-48 | lists the token, adds its amounts and logs the old account so that it can be undone exactly |
| State.AccountObject.RemoveToken | plasmachain/accountobject.go:50-66 | the loop rebuilds the list without the token; the amounts go and the entry undoes both |
| State.AccountObject.SetAccountBalance | plasmachain/accountobject.go:68-74 | changes the balance alone and can be undone exactly |
| State.ChainObject.AddOwner | plasmachain/chainobject.go:35-41 | appends an owner and can be undone exactly |
| State.ChainObject.RemoveOwner | plasmachain/chainobject.go:43-49 | the backwards loop compares addresses of variables, so it logs the owners and removes none of them |
| State.ChainObject.SetStartBlock | plasmachain/chainobject.go:60-67 | sets the first block and logs the last one in both places |
| State.ChainObject.SetEndBlock | plasmachain/chainobject.go:51-58 | sets the last block and logs the old one in both places |
| State.ChainObject.Existed | plasmachain/chainobject.go:82-89 | finds an address exactly when it is an owner |
| State.StateDB.GetOrCreateAccount | plasmachain/statedb.go:338-377 | the registered object, else a new one with the stored account or an empty one; nothing for a stored account that does not decode, and a panic exactly for a lookup that runs into the key zero |
| State.StateDB.GetOrCreateChain | plasmachain/statedb.go:457-497 | the registered object, else a new one with the stored chain or an ownerless one, and a panic exactly for a lookup that runs into the key zero |
| State.StateDB.GetTokenObject | plasmachain/statedb.go:204-227 | a new object with the stored token, never a pending one |
| State.StateDB.CreateDeposit | plasmachain/statedb.go:229-249 | a new token with its whole denomination as balance, unless the token is stored |
| State.StateDB.Append | plasmachain/statedb.go:105-109 | registers a token, its flag and its transaction |
| State.StateDB.AppendAnchor | plasmachain/statedb.go:111-115 | registers a chain and its flag |
| State.StateDB.Snapshot | plasmachain/statedb.go:117-122 | a new number that marks the present end of the journal |
| State.StateDB.Revert | plasmachain/journal.go:145-229 | an entry changes what is pending as its undoing on values says; a token entry changes nothing pending |
| State.StateDB.RevertToSnapshot | plasmachain/statedb.go:84-103 | undoes exactly what was journaled since the snapshot and forgets it and the later ones; tokens, flags, transactions and anchors stay; an unknown number changes nothing |
| State.StateDB.Commit | plasmachain/statedb.go:149-202 | in whatever order the pending maps are walked, the stored tokens, transactions and chains are the old ones overlaid by the pending ones, the accounts are stored one after the other in some order of all of them, as nothing readable if they do not encode, and nothing stays pending; the flush gets through exactly when no opened tree has the key zero and no two keys share 60 bits |
| Plasma.StoreOrderIff | plasmachain/statedb.go:379-405 | storing the pending accounts gives one result in all their orders exactly when pending accounts with one storage key have the same contents, or none of them encodes |
| Plasma.FlushesIff | smt/smt.go:47-52 | whatever the order, what decides whether a commit gets through are the keys of the opened trees and of those it writes |
| Roots.CommitTree | plasmachain/storage.go:73-94 | writing pending values into the in-place tree and flushing it gets through exactly when no two keys share 60 bits, and the root is then the plain root of the values after the writes |
| Roots.CommitRoots | plasmachain/statedb.go:149-202 | in every order of the pending maps the trees then stand for what is written, and the token, transaction, account and chain roots of the header are the plain roots of that and of the block's transactions |
| Commits.HeaderOrderIff | plasmachain/statedb.go:379-405 | without collisions the header is the same in all orders exactly when pending accounts that share a storage key have the same contents, or none of them encodes |
| Commits.ApartIff | smt/node.go:157-160 | a tree that stands for a map from numbers can be flushed exactly when no two numbers differ in their last four bits only |
| Commits.AllFlushed | plasmachain/storage.go:73-79 | flushing trees into one store, one after another, keeps all trees flushed before and now, and every root mapped to the latest that has it |
| Commits.CommitOpens | plasmachain/storage.go:38-55 | after the five flushes of a block, the trees the next block opens at the header's roots stand for the committed state exactly when none of its keys is zero; the account tree opens empty if none of its accounts encodes and the block has no anchors |
| ZeroKey.LoadsIff | smt/node.go:350-373 | a lookup in an opened tree loads the value of the key zero as a node, and panics, exactly when it has more leading half-bytes in common with zero than any other key of the tree; no other lookup panics |
| Apply.PlasmaChain.ApplyTransfer | plasmachain/backend.go:555-660 | with both accounts found, the in-place checks accept what `Effects.TransferIff` describes and leave pending what `Effects.TransferDoes` does; after a rejection the journal undoes to the state before |
| Apply.PlasmaChain.ApplyDeposit | plasmachain/backend.go:544-554 | likewise for deposits (`Effects.DepositIff`, `Effects.DepositDoes`), with what is left of one that is rejected late |
| Apply.PlasmaChain.ApplyPlasmaTransaction | plasmachain/backend.go:528-670 | both together, for every transaction, stored and pending state: rejected if the recipient's account is lost, a panic exactly if a lookup runs into the key zero or a token is to be taken off a lost account |
| Apply.PlasmaChain.ApplyAnchorTransaction | plasmachain/backend.go:367-491 | the in-place checks accept what `Anchoring.AnchorIff` describes and leave pending what it says; after a rejection the journal undoes to the state before; a panic exactly if the lookup runs into the key zero |
| Apply.PlasmaChain.InsertChain | plasmachain/backend.go:214-236 | the last block becomes the current one by its own number, and after a block made on top of the current one the blocks are still numbered 1 to the current number |
| Mint.ApplyTransaction | plasmachain/backend.go:140-157 | transfers and anchors alike: the state after an accepted one, what a rejected one undoes to, and when it panics |
| Mint.CommitTransaction | deep/poa.go:246-259 | a rejected transaction leaves journal and snapshots as they were, and everything pending too when a deposit hashes to its token |
| Minting.RejectedIff | deep/poa.go:246-259 | a rejected transaction leaves the state before it exactly when the rejection is not late |
| Minting.RejectedNamed | plasmachain/transaction.go:184-189 | a rejected transaction that hashes to its token always leaves the state before it |
| Minting.RetrySame | deep/poa.go:230-238 | trying a rejected transaction again rejects it again and changes nothing |
| Minting.LongestIsLongest | deep/poa.go:224-244 | a prefix of the list applies exactly when it is no longer than the one committed |
| Minting.ReplayIff | deep/poa.go:224-244 | the minted state is the replay of the committed list alone exactly when the transaction that stopped it was not rejected late |
| Minting.ReplayNamed | deep/poa.go:224-244 | from transactions that hash to their tokens the minted state is always the replay of the committed list alone |
| Minting.RestoredIff | plasmachain/statedb.go:84-122 | reverting to an older snapshot after trying transactions restores its view exactly when none of them was accepted, nor rejected late |
| Minting.MintIsRun | deep/poa.go:121-221 | in every storing order a minted block is a run that tries transactions and seals, and its transaction map is what the run logs |
| Minting.EventsClean | plasmachain/transaction.go:184-189 | trying transactions that hash to their tokens rejects nothing late |
| Mint.CommitTransactions | deep/poa.go:224-244 | the loop ends, commits the longest prefix that applies, and takes the first failing transaction out of the pool, or panics at it and takes nothing |
| Mint.MintNewBlock | deep/poa.go:121-221 | from the pool, ordered as `GetTransactions` orders it: the block with its number, transactions and bloom filter, the stored state, a pool that lost exactly what was committed and the transaction that stopped it; from a sound pool the state is the replay of the committed transactions and the pool stays sound; it panics, and the chain stays, exactly when a transaction does or the trees cannot be flushed |
| MintedChain.MintOn | deep/poa.go:121-221 | minting once more, whatever the addresses and the pool, the chain's stored state, number and blocks are those of a run from genesis whose blocks could all be flushed |
| MintedChain.Operate | plasmachain/backend.go:1252-1269 | from an empty chain and pool, whatever transactions, deposits, anchors and calls to mint come in, up to a panic: the chain stands where a run without late rejections ends and the pool is sound; for recipients that differ in their last eight bytes ownership and sums hold all along exactly when every block stored its accounts so that they can be read, and the sums are exact if no transfer raised a balance and no address ends in zeros |
| MintedChain.MintedHistory | plasmachain/backend.go:1028-1040 | in every minted chain following previous blocks from a stored token visits exactly the blocks whose transaction map holds the token, latest first |
| MintedChain.MintedBloom | plasmachain/statedb.go:152-170 | in every minted chain a block's bloom filter has exactly the positions of the tokens in its transaction map |
| MintedChain.MintedAnchored | plasmachain/backend.go:367-491 | in every minted chain a stored chain's anchors are numbered without gap or repeat and it has an owner and none twice |
| MintedChain.MintedApart | smt/node.go:157-160 | in every minted chain no two keys of a tree share 60 bits |
| MintedChain.MintedOwned | plasmachain/backend.go:528-660 | in every chain minted without late rejections whose blocks stored their accounts a stored token can be read in its owner's list, once, and in no other |
| MintedChain.MintedConserved | plasmachain/backend.go:579-632 | a token stored in a chain stays in every chain minted on, keeps its denomination and is never less spent |
| Pool.Sort | plasmachain/plasmatxpool.go:54-64 | the result is ordered and has the same entries |
| Pool.TxPool.GetTransactions | plasmachain/plasmatxpool.go:54-64 | all transfers before all anchors; of two transfers the earlier has the smaller token, or the same and no later previous block; of two anchors the earlier has the smaller chain, or the same and no larger number; nothing lost or added |
| Pool.TxPool.AddTransaction | plasmachain/plasmatxpool.go:91-101 | appends a transaction unless its hash is there, and keeps hashes distinct and every deposit hashing to its token |
| Pool.TxPool.AddAnchorTransaction | plasmachain/plasmatxpool.go:122-133 | likewise for anchors |
| Pool.TxPool.RemoveTransaction | plasmachain/plasmatxpool.go:103-120 | removes the first entry with the hash and nothing else |
| Pool.SendPlasmaTransaction | plasmachain/backend.go:1252-1269 | takes exactly the transactions signed by the previous owner, deposits only from the operator and only if they hash to their token, unless the hash is there; the entry is the sender's but for a zero balance, which becomes what makes balance, allowance and spent add up to the denomination modulo 2^64; the pool stays sound |
| Intake.SendWithoutBalance | plasmachain/backend.go:1252-1269 | a transfer sent without a balance passes the check of its own amounts, so what decides is all the other checks |
| Intake.BacklogMinted | deep/poa.go:224-244 | the next n anchors of one chain, signed by its owners and without removals, ordered as the pool orders them, all apply, in whatever order they came in |
| Intake.MintBacklog | deep/poa.go:121-221 | a mint from a pool that holds only such anchors puts all n into the block, moves the chain's end n further and empties the pool, exactly when no tree has the key zero and no keys share 60 bits, and else panics and leaves the chain |
| Pool.ProcessDeposit | plasmachain/backend.go:1436-1449 | the deposit seen on the root chain enters under the token it hashes to; the pool stays sound |
| Bloom.NewBloom | plasmachain/bloom.go:31-44 | exactly the eight positions of each listed number are set |
| Bloom.PositionsOf | plasmachain/bloom.go:31-44 | the eight positions of a number are the 15-bit numbers that its four pairs of bytes make, low byte first, read forwards and backwards |
| Bloom.CheckBloom | plasmachain/bloom.go:46-62 | true for a chunk of another size, and else exactly when all eight positions are set |
| Bloom.CheckNew | plasmachain/bloom.go:31-62 | a number is found exactly when each of its positions is one of a listed number; no listed number is missed |
| Bloom.SameChunk | plasmachain/bloom.go:31-44 | the chunk depends only on the set of listed numbers |
| Bloom.BloomIsSet | plasmachain/statedb.go:152-170 | whatever order the tokens are listed in, the chunk stored for a block is that of the set of its tokens |
| ArrayMerkle.Merkelize | merkle/merkletree.go:37-51 | pads to the least power of two; every node is the hash of its children and node one the root by halving |
| ArrayMerkle.FourLeaves | merkle/merkletree.go:37-51 | of four leaves the root hashes the hashes of the first and of the last pair, in order |
| ArrayMerkle.RootIsHalfRoot | merkle/merkletree.go:53-55 | the array's node one is the root of the leaves by halving |
| ArrayMerkle.GenProof | merkle/merkletree.go:57-70 | the leaf and its siblings upwards; an error above the number of leaves and a panic at it |
| ArrayMerkle.CheckProof | merkle/merkletree.go:72-94 | accepts exactly when climbing from the first word with the others gives the root; an error for other lengths and a panic for none |
| ArrayMerkle.Complete | merkle/merkletree.go:57-94 | a leaf whose sibling is real, or that is alone, has a proof that is accepted |
| ArrayMerkle.CompleteIff | merkle/merkletree.go:37-94 | without collisions the proof made for a leaf is accepted exactly in that case |
| ArrayMerkle.Binding | merkle/merkletree.go:72-94 | without collisions two accepted proofs of one length for one index and root are the same |
| Speculative.RunInv | deep/speculative_chain.go:37-174 | over every proper run the proposed transactions are the disjoint union of the unapplied blocks' and the last unapplied block is the head |
| Speculative.UnwindExact | deep/speculative_chain.go:77-121 | unwinding at a block leaves exactly the blocks before it and puts exactly those after it in the guard |
| Speculative.UnwindMissing | deep/speculative_chain.go:77-121 | unwinding at a block that is not there pops everything and puts all of it in the guard |
| Speculative.UnwindGuarded | deep/speculative_chain.go:77-121 | unwinding at a block the guard expects takes its hash out of the guard and changes nothing else |
| Speculative.AcceptExact | deep/speculative_chain.go:59-74 | accepting the earliest unapplied block drops it and leaves the transactions of the others proposed, with head and guard as they were; accepting another leaves nothing but it as head; on an empty chain head, blocks and guard stay |
| Speculative.ExtendExact | deep/speculative_chain.go:45-49 | an extended chain has the block last, as head, and its transactions proposed, and unwinding at it gives the chain before |
| Speculative.FilterInOrder | deep/speculative_chain.go:158-174 | the filtered transactions stay in their order |
| Speculative.FilteredIsProper | deep/speculative_chain.go:158-174 | the filter keeps exactly the transactions that are not proposed |
| Speculative.SpeculativeChain.Clear | deep/speculative_chain.go:37-42 | starting over at a block establishes the invariant from any state; the filter then lets every transaction through and no unwinding changes anything |
| Speculative.SpeculativeChain.Extend | deep/speculative_chain.go:45-49 | a block of filtered transactions extends the chain and keeps the invariant |
| Speculative.SpeculativeChain.Accept | deep/speculative_chain.go:59-74 | in place what `Speculative.AcceptExact` describes, and the invariant is kept |
| Speculative.SpeculativeChain.UnwindFrom | deep/speculative_chain.go:77-121 | the loop pops down to and with the last block of the given hash, or everything, unless the guard expects the hash, and the invariant is kept |
| Speculative.SpeculativeChain.WithoutProposed | deep/speculative_chain.go:158-174 | keeps for each account the transactions not proposed, and no account without any |

## Left out

- Keccak256, signature recovery and RLP coding: the hash is a parameter, a recovered signer is a value, and what a tree is given for a token, account or chain is a parameter; that negative numbers do not encode is modelled.
- Chunk-store failures and the goroutine that writes a flushed chunk: writes succeed and are done when the call returns.
- Deleting from the sparse Merkle tree, dumping it, opening it by chunk hash, and the text and byte forms of proofs.
- What the anchor tree holds beyond its keys and the length of its values, the time and parent hash in block headers, block assembly and publication.
- Validation of anchors before they enter the pool; of transactions, what recovers a signer from a signature.
- Commits.CommitOpens: assumes of the words given for tokens, accounts and chains that they differ, are nonzero and are not the hash of nothing, and of the values of the anchor tree that they have more than 64 bytes.
- 64-bit wrap-around of block numbers.
- Journal entries that no modelled operation makes: deposits, exits and account denominations.
- Slices that share memory: lists are values, so an append or a removal in one list never shows in another.
- Blocks that arrive from peers, the Raft minter and its commit loop, timers, and the network.
- The lock and concurrent use of the speculative chain, and setting its head from outside.
- NodeTree.Node.Load: for stand-ins of tries that can be saved; a zero key or a value that is not a nonzero word reads back as something else (`Chunk.ReadRow`, `Chunk.ZeroKeyLost`), so the node then stands for another trie.
- SparseMerkle.SparseMerkleTree.InitWithRoot: likewise for roots of tries that can be saved.
- History.OldRootsReadable: a root opened on the way must read as a trie with its keys where they belong; chunks that are not nodes may read as anything or make the code panic.
- History.RunSummed: runs open only roots of tries that can be read back, since what else opens has other totals.
- State.StateDB.Revert: a lookup that panics while an entry is undone counts as undoing nothing; the minter undoes only what it has looked up before.
- Mint.MintNewBlock: asks that transaction hashes in the pool differ, which the pool's own checks give within each list and collision-freedom gives across the two.
- MintedChain.Operate: asks that no transfer or deposit that comes in has the hash of an anchor that comes in.
- ArrayMerkle.Merkelize: asks for at least one leaf, because the source never returns for none.
- ArrayMerkle.GenProof: asks for an array as `Merkelize` builds it, of even and nonzero length.
- Speculative.RunInv: asks that blocks extend the chain with filtered transactions and that a block hash identifies its transactions.
- Bloom.CheckNew: the bytes of the reversed number are modelled as the bytes in reverse.
