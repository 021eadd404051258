# Verified models of cpp-ethereum's data structures and machines

The project models the parts of cpp-ethereum where correctness rests on an argument that spans several functions, and
proves that argument. `dafny verify dfyconfig.toml` checks all of it.

**The Merkle Patricia trie.** `MerkleTrie`, `TrieDelete`, `TrieCanonical`, `TrieSafety` and `TrieRuns` treat a trie as a
tree and its operations as functions on it; `TrieDB` is the class that does the same work on encoded nodes in a
reference-counted store, and every method of it is proved against the tree. The chain of results is: lookups after an
insert or a removal are those of a map; both keep the normal form; a normal form is determined by its map, so the root
depends on the map and not on the history, and equals the root that `TrieHash` builds from the sorted map in one pass; and
the store's count of every node is the number of times that node occurs in the trie. `TrieStore.Life` puts these together
for any run on the class from an empty store. `TrieCursor` is the iterator,
`HexPrefix` the packing of paths, `OverlayDB` the store over a disk, `TrieKeys` the two families of keys the system uses.

**RangeMask.** A set as an ordered map of ranges, against membership of single numbers.

**Money and gas.** `Ledger`, `Runs` and `Executive` follow the ether through a transaction and every call inside it: the
balance of every account after it is what it was, with the entries that belong to the run and what settlement pays
(`Executive.Executive.Transact`). `VMPrices`, `VMTable`, `VMMemory`, `VMTrace` and `VM` follow gas, memory, stack pointers and
the program counter through any run of any code: `VM.VM.Exec` enters every step with its operands, each at its price and each
where the one before it led; `VMExample` counts out a small run.

**Smaller machines.** `Worker` (a thread protocol over all interleavings), `ICAP` (base 36 and modulo 97), `Base64`,
`Sponge` (the Keccak sponge over any permutation).

A property that the code does not meet is shown at an input and with the exact condition under which it holds; these are
listed under "Where the code and its promises part".

## Modelling conditions

- Values are not empty: an empty string is how the code says that there is no value.
- RLP.h is not part of this model. The encoding of a node is the node itself as a value (`TrieCodec.Rlp`), with a size that
  is below 32 for the empty node and otherwise arbitrary. The digest has a left inverse on nodes, which says that no two
  nodes in play collide. Nodes with size below 32 stand inside their parent, as in the code.
- One store may serve several tries: `others` counts the references of the rest, and every operation leaves them alone.
- Insertion and lookup take any key. Removal has the condition `Safe`, which says that `deleteAt` keeps to the lines meant
  for it. Off those lines it descends through a leaf (libdevcore/TrieDB.h:967), reads the first nibble of an empty key
  (:1015), or takes the value in slot 16 for a node (:1034). `TrieSafety.SafeExactly` says for which keys that is: the key
  properly extends a stored key that no other stored key extends; or it ends, without being stored, exactly where two
  stored keys part; or it properly extends a stored key and is the only other stored key that does. Each of the three happens
  (`TrieSafety.DeadEndHappens`, `EndsAtForkHappens`, `LastUnderHappens`). Prefix-free keys never do, and keys of fixed width
  and RLP numbers are prefix-free (`TrieKeys`).
- Inserting into a branch at the branch's own key with `_inLine` false kills the digest of a node that, for a branch newly
  made by `branch()`, was never stored. That kill cannot hit another node's count, because the node it names is not in
  normal form and so occurs in no trie (`TrieCodec.Phantom`).
- State.cpp is not part of this model: the shared state is a balance and a nonce for every address, with an undo log and
  savepoints, as `Executive` uses it. ExtVM.cpp is not part of this model: what code does is a list of the events that touch
  the ledger or use gas, with any nesting. What instructions cost is an input of a run (`Spend`); the gas of calls and
  creations is handed over, used and given back as the code does it. The price of moving value is at least the stipend
  (`Covered`), as in every schedule. A suicide moves the balance to the heir; when the heir is the account itself the balance
  stays there until `kill` burns it with the account. A transfer that the sender cannot pay throws.
- In `VM`, what an instruction computes, what accounts and storage hold and what a called contract answers are left open, so
  each property holds for all of them; where results go, what stays untouched, and what each step costs are not. A called contract gives back no more gas than it got, and a creation likewise: that
  is what `Executive.Executive.Go` proves of every executive, over any nesting of calls.
- A root may be opened when the store has all of its trie or nothing of it; the node that is missing in the middle of a trie
  is not modelled.
- Locks, logging, tracing and the optional build switches are left out throughout.

## Where the code and its promises part

- A transaction with a zero signature pays nothing for its gas, yet `finalize` pays it out. Before metropolis ether is
  created unless both payments are nothing once cut to 256 bits: that is, unless the product of gas and price and the part
  of it that is paid back are multiples of 2^256, which for products below 2^256 means that gas or price is zero
  (`Executive.Conservation`). `Executive.Mint` carries such a transaction out and ends with 21000 units more.
- A failed transaction keeps its value where it was, except that a precompiled contract that runs and fails has been paid
  (`Executive.FailedKeepsValue`, and at an input `Executive.FailedCanPay`).
- `lowest(n)` misses elements exactly when `first + items` leaves 32 bits on a range it reaches (`RangeMask.Take`).
- `-=` with a mask of a larger ground range adds what the ground range grew by, unless the mask covers it; a mask taken from
  itself in place stays as it was (`RangeMask.Mask.Subtract`, and at an input `RangeMask.SubtractCanFail` and
  `RangeMask.SubtractMore`).
- The old stack pointer leaves the array, by one slot, exactly when a POP or an SDIV runs on a full stack (`VM.VM.Step`, and
  at an input `VM.VM.PopWhenFull`).
- MSTORE and MSTORE8 cut the address to 32 bits. The memory is what a store at the address itself would leave exactly when
  the address is below 2^32 or both places hold the bytes already (`VM.VM.CaseStore`, `VMMemory.CutAddress`, and at an input
  `VM.VM.StoreAtTwo32`).
- MLOAD cuts it likewise, and gives the word at the address itself exactly when the address is below 2^32 or both places hold
  the same bytes (`VM.VM.CaseLoad`, `VMMemory.LoadAddress`, and at an input `VM.VM.LoadAtTwo32`).
- A decoded direct ICAP address does not encode to the same text when 31 characters go beyond 160 bits or begin with a zero
  (`ICAP.EncodedAgain`, `ICAP.TwoForOne`).
- The price of an opcode is read past the end of the tier prices exactly when it is no instruction (`VMPrices.TableReaches`).
  The model takes any price there; whatever it is, the step is refused and charges nothing (`VM.VM.Step`, and at an input
  `VM.VM.UnknownRefused`).

## Model

| member | source | states |
|---|---|---|
| `Nibbles.SharedSpec` | libdevcore/TrieCommon.h:16-26 | the shared prefix is common to both and the next nibbles differ |
| `MerkleTrie.InsertLookup` | libdevcore/TrieDB.h:757-893 | after an insert the key has the new value and every other key its old one |
| `MerkleTrie.InsertNormal` | libdevcore/TrieDB.h:818-893 | insertion keeps the normal form: no empty path, an extension over a branch, two used slots in a branch |
| `MerkleTrie.CleveLookup` | libdevcore/TrieDB.h:1115-1134 | splitting a path changes no lookup |
| `MerkleTrie.BranchOutLookup` | libdevcore/TrieDB.h:1182-1213 | turning a two-item node into a branch changes no lookup |
| `TrieDelete.UniqueSpec` | libdevcore/TrieCommon.cpp:93-105 | the scan finds the one used slot besides the excepted one, or says there is none or more than one |
| `TrieDelete.GraftLookup` | libdevcore/TrieDB.h:1136-1161 | joining a path to the node below changes no lookup |
| `TrieDelete.CollapseLookup` | libdevcore/TrieDB.h:1163-1180 | merging a branch with one used slot changes no lookup |
| `TrieDelete.DeleteLookup` | libdevcore/TrieDB.h:912-1044 | removal takes out exactly its key, and reports that nothing was there exactly when the key was not stored |
| `TrieDelete.DeleteNormal` | libdevcore/TrieDB.h:939-1044 | removal restores the normal form through graft and merge |
| `TrieDelete.PrefixFreeIsSafe` | libdevcore/TrieDB.h:939-1044 | with prefix-free keys removal keeps to the lines meant for it |
| `TrieSafety.SafeExactly` | libdevcore/TrieDB.h:939-1044 | the exact keys for which removal keeps to the lines meant for it |
| `TrieSafety.DeadEndHappens` | libdevcore/TrieDB.h:967 | a trie and a key at which removal descends through a leaf |
| `TrieSafety.EndsAtForkHappens` | libdevcore/TrieDB.h:1015 | a trie and a key at which removal reads past the key |
| `TrieSafety.LastUnderHappens` | libdevcore/TrieDB.h:1034 | a trie and a key at which removal takes a value for a node |
| `TrieCanonical.Canonical` | libdevcore/TrieDB.h:757-926 | two normal-form tries of one map are the same trie |
| `TrieRuns.RunRefines` | libdevcore/TrieDB.h:757-926 | any run of inserts and removes acts on lookups as the same run on a map |
| `TrieRuns.HistoryIndependence` | libdevcore/TrieDB.h:757-926 | two runs from the empty trie that end in one map end in one trie |
| `TrieRuns.InsertThenRemove` | libdevcore/TrieDB.h:757-926 | inserting a new key and removing it gives the same trie back |
| `TrieRuns.PrefixFreeRun` | libdevcore/TrieDB.h:912-926 | a run over prefix-free keys never leaves the safe lines |
| `TrieKeys.FixedWidthIsPrefixFree` | libdevcore/TrieDB.h:306-314 | keys of one width are prefix-free |
| `TrieKeys.NumberedIsPrefixFree` | libdevcore/TrieHash.cpp:159-166 | keys that are RLP numbers are prefix-free |
| `TrieKeys.RlpReadsBack` | libdevcore/TrieHash.cpp:159-166 | the form of a number is the one RLP string that reads back as its shortest big-endian bytes |
| `TrieKeys.OrderedTrieRoot` | libdevcore/TrieHash.cpp:159-166 | the root of a list is that of every normal-form trie holding item j under the RLP string that reads as j |
| `TrieCodec.EncInjective` | libdevcore/TrieDB.h:1106-1113 | encodings, digests and references name one trie each |
| `TrieCodec.Phantom` | libdevcore/TrieDB.h:1063-1082 | a node out of normal form has no reference that a kill could take |
| `OverlayDB.Overlay.Insert` | libdevcore/MemoryDB.cpp:66-82 | the node is held with one more reference |
| `OverlayDB.Overlay.Kill` | libdevcore/OverlayDB.cpp:119-137 | a live node loses one reference, anything else is left as it was |
| `OverlayDB.Overlay.Readable` | libdevcore/OverlayDB.cpp:101-107 | a node that is referenced or on disk is found, and is the node its digest names |
| `OverlayDB.Overlay.Exists` | libdevcore/OverlayDB.cpp:109-117 | a node exists exactly when it can be looked up |
| `OverlayDB.Overlay.Keys` | libdevcore/MemoryDB.cpp:159-171 | the digests with a live count, each of them |
| `OverlayDB.Overlay.Purge` | libdevcore/MemoryDB.cpp:139-157 | exactly the entries without references go |
| `OverlayDB.Overlay.Commit` | libdevcore/OverlayDB.cpp:28-77 | what is referenced or on disk is found as before, all live nodes are on disk, the overlay is empty |
| `OverlayDB.Overlay.Rollback` | libdevcore/OverlayDB.cpp:93-99 | lookups are those of the disk |
| `TrieDB.GenericTrieDB.Insert` | libdevcore/TrieDB.h:757-773 | the store-backed insert is the insert on the tree; root digest and every reference count are exact again |
| `TrieDB.GenericTrieDB.Remove` | libdevcore/TrieDB.h:912-926 | the store-backed removal is the removal on the tree, with exact counts; for an absent key root and store do not change |
| `TrieDB.GenericTrieDB.At` | libdevcore/TrieDB.h:775-811 | the value found through the store is the tree's |
| `TrieDB.GenericTrieDB.AtAux` | libdevcore/TrieDB.h:780-811 | lookup from an encoded node is lookup in the tree it encodes |
| `TrieDB.GenericTrieDB.MergeAt` | libdevcore/TrieDB.h:818-893 | the new node encodes the tree with the pair inserted, and the counts move from the old nodes to the new |
| `TrieDB.GenericTrieDB.MergeAtAux` | libdevcore/TrieDB.h:895-910 | the same through a reference that may be a digest or a node in place |
| `TrieDB.GenericTrieDB.Place` | libdevcore/TrieDB.h:1063-1082 | the value is set at a node whose path the key ends with |
| `TrieDB.GenericTrieDB.Split` | libdevcore/TrieDB.h:1115-1134 | the split node is stored with exact counts |
| `TrieDB.GenericTrieDB.Spread` | libdevcore/TrieDB.h:1182-1213 | the two-item node becomes a branch with exact counts |
| `TrieDB.GenericTrieDB.DeleteAt` | libdevcore/TrieDB.h:939-1044 | the new node encodes the tree without the key, or nothing is touched if it was not there |
| `TrieDB.GenericTrieDB.DeleteAtAux` | libdevcore/TrieDB.h:1046-1061 | the same through a reference |
| `TrieDB.GenericTrieDB.JoinUp` | libdevcore/TrieDB.h:1136-1161 | a two-item node over a two-item node becomes one, with exact counts |
| `TrieDB.GenericTrieDB.MergeAway` | libdevcore/TrieDB.h:1163-1180 | a branch with one used slot becomes a two-item node, with exact counts |
| `TrieDB.GenericTrieDB.UniqueInUse` | libdevcore/TrieCommon.cpp:93-105 | the loop computes the unique used slot |
| `TrieDB.GenericTrieDB.StreamNode` | libdevcore/TrieDB.h:1106-1113 | a node of 32 bytes and more is stored and referenced by digest, a shorter one stands in place |
| `TrieDB.GenericTrieDB.KillNode` | libdevcore/TrieDB.h:277-281 | a hashed node loses one reference, a short one none |
| `TrieDB.GenericTrieDB.Init` | libdevcore/TrieDB.h:55 | the empty trie is stored under the digest of the empty node |
| `TrieDB.GenericTrieDB.SetRoot` | libdevcore/TrieDB.h:57-71 | a root that the store has, on disk or in memory, opens its trie; the empty root is made when it is missing; any other root is refused |
| `TrieDB.GenericTrieDB.CommitState` | libdevcore/OverlayDB.cpp:28-77 | after a commit the trie is whole on disk, and so is every trie that was; all of them can be read |
| `TrieDB.GenericTrieDB.DurableIsHeld` | libdevcore/OverlayDB.cpp:101-107 | every trie that was committed can be read whole, whatever memory holds |
| `TrieDB.GenericTrieDB.RollbackTo` | libdevcore/OverlayDB.cpp:93-99 | after a rollback every committed root opens its trie and can be read; other tries on the store stay counted if they were committed |
| `TrieDB.GenericTrieDB.Check` | libdevcore/TrieDB.h:141-209 | the scan of a trie fails exactly when it looks for what is left over and there is a live node that the trie does not hold; in a store of its own there is none |
| `TrieHash.Hash256Rlp` | libdevcore/TrieHash.cpp:28-118 | a run of sorted keys with a shared prefix becomes the encoding of a normal-form trie of that run |
| `TrieHash.HashBranch` | libdevcore/TrieHash.cpp:67-117 | keys that part at the prefix become a branch that holds them |
| `TrieHash.Rlp256` | libdevcore/TrieHash.cpp:141-152 | the one-pass root is the encoding of every normal-form trie of the map |
| `TrieHash.Hash256` | libdevcore/TrieHash.cpp:154-157 | the digest of that |
| `TrieStore.Life` | libdevcore/TrieDB.h:757-926 | after any run from an empty store the counts are exact, and the root is the one-pass root of the map that the run makes |
| `TrieOrder.EntriesAscend` | libdevcore/TrieDB.h:648-745 | the trie's entries in walking order ascend |
| `TrieOrder.EntriesExact` | libdevcore/TrieDB.h:648-745 | the entries are exactly the stored pairs |
| `TrieOrder.SeekIsLowerBound` | libdevcore/TrieDB.h:510-645 | seeking leaves out exactly the entries below the key |
| `TrieCursor.IsEarlierThan` | libdevcore/TrieCommon.h:52-63 | strictly before a prefix, in lexicographic order |
| `TrieCursor.Iterator.Begin` | libdevcore/TrieDB.h:485-490 | the cursor stands on the first entry |
| `TrieCursor.Iterator.LowerBound` | libdevcore/TrieDB.h:492-497 | the cursor stands on the first entry not below the key, or at the end |
| `TrieCursor.FirstFrom` | libdevcore/TrieDB.h:492-508 | the least stored pair not below the key, or nothing when all keys are below |
| `TrieCursor.SeekIsLeast` | libdevcore/TrieDB.h:492-645 | what seeking leaves begins with the least stored pair not below the key |
| `TrieCursor.Iterator.Next` | libdevcore/TrieDB.h:648-745 | the cursor moves to the next entry, or to the end after the last |
| `TrieCursor.Iterator.NextFrom` | libdevcore/TrieDB.h:510-645 | the seeking loop ends on the first entry still to come |
| `TrieCursor.Iterator.At` | libdevcore/TrieDB.h:499-508 | the key and the value of the entry stood on |
| `TrieCursor.Walk` | libdevcore/TrieDB.h:485-508 | a walk from begin to end gives the entries of the trie in order |
| `TrieCursor.WalkIsTheMap` | libdevcore/TrieDB.h:485-745 | what the walk gives ascends and is exactly the map |
| `HexPrefix.PackRoundTrip` | libdevcore/TrieCommon.h:75-90 | path and leaf flag come back from the packed form |
| `HexPrefix.PackedBytes` | libdevcore/TrieCommon.cpp:23-91 | the packed form byte by byte: leaf flag, parity, first nibble, and two nibbles a byte; no other bytes have it |
| `HexPrefix.PackInjective` | libdevcore/TrieCommon.cpp:23-91 | two paths with flags have different packed forms |
| `HexPrefix.EncodeVector` | libdevcore/TrieCommon.cpp:23-38 | the nibble-vector form packs its range, byte by byte as the format says |
| `HexPrefix.EncodeBytes` | libdevcore/TrieCommon.cpp:40-59 | the byte form packs the same range of nibbles, byte by byte |
| `HexPrefix.EncodeSlice` | libdevcore/TrieCommon.h:102-105 | the slice form packs a range of the slice, counted from either end, byte by byte |
| `HexPrefix.EncodeTwo` | libdevcore/TrieCommon.cpp:61-91 | the two-slice form packs the concatenation, byte by byte |
| `HexPrefix.SharedNibbles` | libdevcore/TrieCommon.h:16-26 | the loop counts the longest common prefix of two nibble ranges |
| `RangeMask.Canonical` | libdevcore/RangeMask.h:199-201 | equal sets have equal ranges when ranges are separated |
| `RangeMask.Mask.UnionWithRange` | libdevcore/RangeMask.h:213-272 | the loop ends with separated ranges that hold the old set and the range |
| `RangeMask.Mask.Absorb` | libdevcore/RangeMask.h:216-270 | one round, through every case of the merge |
| `RangeMask.Mask.UnionWith` | libdevcore/RangeMask.h:82-89 | the union of two masks over the hull of their ground ranges |
| `RangeMask.Gaps` | libdevcore/RangeMask.h:58-71 | the complement within the ground range |
| `RangeMask.Mask.Inverted` | libdevcore/RangeMask.h:58-71 | a new mask that is the complement |
| `RangeMask.ComplementTwice` | libdevcore/RangeMask.h:73-75 | inverting twice gives the same ranges back |
| `RangeMask.Mask.SubtractRange` | libdevcore/RangeMask.h:78 | the difference with a range |
| `RangeMask.Mask.Subtract` | libdevcore/RangeMask.h:78 | the set that results, and that it is the difference exactly when the growth of the ground range is covered |
| `RangeMask.SubtractCanFail` | libdevcore/RangeMask.h:78 | no result that contains 1 is the difference, for an empty mask over [0,3) taken from one over [0,1) |
| `RangeMask.SubtractMore` | libdevcore/RangeMask.h:78 | on that input the code ends with 1 in the mask |
| `RangeMask.Take` | libdevcore/RangeMask.h:46-52 | the n smallest elements, exactly when no sum leaves 32 bits |
| `RangeMask.SmallestCount` | libdevcore/RangeMask.h:45-52 | the n smallest elements are n, or all there are |
| `RangeMask.Mask.Lowest` | libdevcore/RangeMask.h:46-52 | the mask of the n smallest elements, exactly when no sum leaves 32 bits |
| `RangeMask.LowestCanFail` | libdevcore/RangeMask.h:46-52 | a mask for which a sum leaves 32 bits |
| `RangeMask.Mask.Contains` | libdevcore/RangeMask.h:103-109 | membership |
| `RangeMask.Mask.Full` | libdevcore/RangeMask.h:116-119 | full exactly when no number of the ground range is out |
| `RangeMask.Mask.Next` | libdevcore/RangeMask.h:161-172 | the smallest element above, or the end of the ground range |
| `RangeMask.Mask.Walk` | libdevcore/RangeMask.h:137-160 | iterating lists the set once in ascending order |
| `RangeMask.Mask.Count` | libdevcore/RangeMask.h:174-181 | the number of elements |
| `RangeMask.Mask.FirstOut` | libdevcore/RangeMask.h:183-188 | the first number that is out |
| `Ledger.State.Rollback` | libethereum/Executive.cpp:487-495 | every change since the savepoint is undone and no other |
| `Ledger.State.Transfer` | libethereum/Executive.cpp:305-306 | a transfer makes and loses nothing, and fails exactly when the money is not there |
| `Runs.PayFlows` | libethereum/Executive.cpp:305-306 | a transfer lowers the sender and raises the receiver by the value, and touches nobody else |
| `Runs.PlainNet` | libevm/VMCalls.cpp:113-205 | a run of calls to plain accounts leaves every account with what it was sent, and the caller without what it sent |
| `Runs.PlainIsFunded` | libevm/VMCalls.cpp:194-205 | with the money for all of it and depth, such a run has every call paid |
| `Executive.Executive.Initialize` | libethereum/Executive.cpp:162-226 | acceptance is exactly the conjunction of the checks, a refusal names something that is so |
| `Executive.Executive.Execute` | libethereum/Executive.cpp:228-240 | the gas is paid for before the point an undo goes back to |
| `Executive.Executive.Call` | libethereum/Executive.cpp:248-308 | the world before and after the call, with and without precompiled contracts, and the gas left |
| `Executive.Executive.Create` | libethereum/Executive.cpp:310-342 | the world after a creation begins |
| `Executive.Executive.Go` | libethereum/Executive.cpp:364-448 | however calls nest, spend and fail, the ether stays and no more gas is left than was given; a failed run leaves the world before it; another has made exactly the entries that its events name, each paid by whoever runs; a run with the money, depth and gas for all it asks ends well, every payment made, its gas and refunds known to the unit |
| `Executive.Executive.Perform` | libevm/VMCalls.cpp:85-205 | what each event enters in the ledger, uses of the gas, adds to the refunds, and whether the account is to be killed |
| `Executive.Executive.CallOutside` | libevm/VMCalls.cpp:113-205 | a call from code enters its value and what the called code enters, or nothing; the caller has no more gas than before, stipend included, and known to the unit when the call is assured |
| `Executive.Executive.SetAside` | libevm/VMCalls.cpp:120-170 | what a call is given is paid for to the unit, and from EIP 150 on a 64th stays; the exact condition under which the gas reaches |
| `Executive.Executive.CallInner` | libevm/VMCalls.cpp:194-205 | a call pays its value to its receiver, exactly when money and depth are there if the receiver has no code; called code runs as the receiver on that world; no more gas comes back than went in |
| `Executive.Executive.CreateOutside` | libevm/VMCalls.cpp:97-106 | a creation from code uses a nonce, enters its endowment and what the new account enters, or nothing more; a 64th of the gas stays from EIP 150 on |
| `Executive.Executive.Finish` | libethereum/Executive.cpp:375-421 | the exact fault, gas and world after each way a run can end, the price of stored code included |
| `Executive.Executive.Revert` | libethereum/Executive.cpp:487-495 | the world is the saved one and refunds and suicides are forgotten |
| `Executive.Executive.Finalize` | libethereum/Executive.cpp:450-485 | refund and kills; account by account, the sender has what is left of the gas, the author what was used; the refund is at most half of the gas spent |
| `Executive.Executive.Transact` | libethereum/Executive.cpp:162-485 | refused without trace; thrown exactly when the sender cannot pay after all, which leaves the world as it was; or, account by account, what it was less the gas bought, with the entries of the transaction and its code, and with settlement; ether after and ether killed are the ether before exactly when signed or without fees; a failed run pays only for gas |
| `Executive.SettledLaw` | libethereum/Executive.cpp:461-467 | settlement on one account: gas left to the sender, gas used to the author, nothing to the dead |
| `Executive.PlainTransfer` | libethereum/Executive.cpp:228-485 | a signed transfer costs its sender the value and the gas used, the receiver has the value, the author the gas, nobody else notices |
| `Executive.NotTwice` | libethereum/Executive.cpp:194-225 | a signed transaction that was accepted is not accepted again |
| `Executive.FeesAreCost` | libethereum/Executive.cpp:461-467 | what is paid back and what the author earns are together the gas bought |
| `Executive.Conservation` | libethereum/Executive.cpp:194-225 | the exact condition under which the fees are what was paid, products beyond 256 bits included |
| `Executive.NothingWraps` | libethereum/Executive.cpp:463-466 | conservation keeps every balance within 256 bits |
| `Executive.Minting` | libethereum/Executive.cpp:194-225 | an accepted unsigned transaction whose fees are new ether |
| `Executive.Mint` | libethereum/Executive.cpp:162-485 | the whole of that transaction, on any world: 21000 units more than before |
| `Executive.FailedKeepsValue` | libethereum/Executive.cpp:262-307 | a failed transaction moves its value exactly when a precompiled contract ran and failed |
| `Executive.FailedCanPay` | libethereum/Executive.cpp:262-307 | a failed transaction whose value has moved |
| `VMPrices.MemGasGrows` | libevm/VM.cpp:92-96 | more memory is never cheaper |
| `VMPrices.MemBound` | libevm/VM.cpp:92-96 | memory that 63 bits of gas can pay for has fewer than 2^48 words |
| `VMPrices.FairIsOrderly` | libevm/VM.cpp:105-112 | under narrow prices no gas sum can leave 64 bits |
| `VMPrices.SchedulesAreFair` | libevmcore/EVMSchedule.h:35-113 | the first and the latest schedule meet the conditions |
| `VMPrices.TableReaches` | libevm/VM.cpp:129-139 | the table of tier prices has an entry exactly for the instructions there are |
| `VMTable.CheapTiers` | libevmcore/Instruction.cpp:159-308 | which instructions are of the tiers zero, base and very low |
| `VMTable.DearTiers` | libevmcore/Instruction.cpp:159-308 | which instructions are of the other tiers |
| `VMTable.Results` | libevmcore/Instruction.cpp:159-308 | what instructions with one result take |
| `VMTable.Moves` | libevmcore/Instruction.cpp:159-308 | what stack, memory, storage, jump and log instructions take and leave |
| `VMTable.Leaves` | libevmcore/Instruction.cpp:159-308 | what calls, creations and ends take and leave, and that no other byte takes anything |
| `VMMemory.FirstBitSet` | libdevcore/FixedHash.h:181-194 | the first bit set is in the first byte that is not zero |
| `VMMemory.LeadingBytes` | libevm/VM.cpp:368-378 | the price of EXP is by the bytes of its exponent that do not lead with zeros |
| `VM.Optimize` | libevm/VMOpt.cpp:45-104 | the jump table is exactly the JUMPDESTs at instruction starts, in order; synthetic instructions become bad |
| `VM.DataIsNoStart` | libevm/VMOpt.cpp:70-80 | push data holds no instruction |
| `VM.MemNeed` | libevm/VM.cpp:9-12 | an empty range needs no memory, another needs its end, within 63 bits |
| `VM.VM.UpdateIOGas` | libevm/VM.cpp:98-103 | gas is charged whole or not at all |
| `VM.VM.UpdateGas` | libevm/VM.cpp:105-112 | growth and copying are added without wrapping |
| `VM.VM.UpdateMem` | libevm/VM.cpp:114-120 | memory grows in whole words and never shrinks |
| `VM.VM.AdjustStack` | libevm/VM.cpp:74-89 | the stack pointers move within the array, and an error says which end was passed |
| `VM.VM.FetchInstruction` | libevm/VM.cpp:129-139 | the operands of the instruction are on the stack and its results have room |
| `VM.VM.VerifyJumpDest` | libevm/VMCalls.cpp:69-83 | a destination is accepted exactly when it is in the jump table, and then is a JUMPDEST |
| `VM.VM.CaseResult` | libevm/VM.cpp:385-783 | an instruction with one result takes exactly its price, touches only the slot of the result, and fails exactly when the price is not there |
| `VM.VM.CasePop` | libevm/VM.cpp:783-790 | a POP takes exactly its price |
| `VM.VM.CaseJump` | libevm/VM.cpp:861-878 | a jump that is taken lands on its operand, which is a JUMPDEST; the exact outcome otherwise |
| `VM.VM.CaseReturn` | libevm/VM.cpp:205-239 | the bytes that the operands name are the output, of a RETURN and of a REVERT |
| `VM.VM.CasePush` | libevm/VM.cpp:816-859 | the bytes behind the instruction, zeros past the code |
| `VM.VM.CaseDupSwap` | libevm/VM.cpp:979-1032 | the n-th item is copied, or exchanged with the first |
| `VMMemory.CopyInto` | libevm/VMCalls.cpp:8-21 | data laid over memory, zeros past the data, nothing else touched |
| `VM.VM.CaseLoad` | libevm/VM.cpp:275-283 | the word at the address cut to 32 bits, how far memory grows, and exactly when the gas reaches |
| `VM.VM.CaseStore` | libevm/VM.cpp:285-303 | the bytes of the word at the address cut to 32 bits, how far memory grows, and exactly when the gas reaches |
| `VMMemory.CutAddress` | libevm/VM.cpp:285-303 | when the cut address leaves the memory that the full address would leave, both ways |
| `VM.VM.StoreAtTwo32` | libevm/VM.cpp:295-303 | MSTORE8 at 2^32 runs and its byte lands at 0 |
| `VMMemory.LoadAddress` | libevm/VM.cpp:275-283 | when the word at the cut address is the word at the address, both ways |
| `VM.VM.LoadAtTwo32` | libevm/VM.cpp:275-283 | MLOAD at 2^32 runs and its word is not the one that stands there |
| `VMMemory.WordsFit` | libevm/VM.cpp:275-293 | a word read back from its bytes is that word |
| `VM.VM.CaseCreate` | libevm/VMCalls.cpp:85-111 | a creation takes its price and no more than it gives, and a 64th of what its own price leaves stays from EIP 150 on |
| `VM.VM.GiveGas` | libevm/VMCalls.cpp:155-173 | the gas of a call is paid for up to the stipend, and keeps a 64th back from EIP 150 on |
| `VM.VM.CaseCall` | libevm/VMCalls.cpp:113-205 | a call takes its fixed price and, of the gas it gives, what does not come back; memory grows as far as input and output reach and changes only where the output goes |
| `VM.VM.Step` | libevm/VM.cpp:183-1117 | where a step goes, what it takes by its own price, how far memory reaches, what it leaves alone, how it ends; at a flat price it lacks gas exactly when that price is not there; what is no instruction is refused and charges nothing; the old stack pointer stays in the array but for a POP or SDIV on a full stack |
| `VM.VM.PopWhenFull` | libevm/VM.cpp:783-789 | a POP on a full stack runs and leaves the old stack pointer one below the array |
| `VM.VM.UnknownRefused` | libevm/VM.cpp:1110-1114 | the step at 0x0c reads past the table, is refused and charges nothing |
| `VM.VM.Exec` | libevm/VM.cpp:152-178 | every run ends; gas given is gas left, the price of the final memory, and the sum of what the steps took; the steps are those of the code, each at its price and each where the one before it led; why a run failed |
| `VMTrace.FlatGoesOn` | libevm/VM.cpp:385-783 | a step whose flat price and operands are there goes on to the next instruction and takes that price |
| `VMExample.AddCosts` | libevm/VM.cpp:385-392 | PUSH1 1, PUSH1 2, ADD leaves 91 of 100 |
| `Worker.Reachable` | libdevcore/Worker.cpp:9-101 | which states and places go together in every run |
| `Worker.StoppedIsOutside` | libdevcore/Worker.cpp:64-76 | Stopped is seen only while the thread is outside its work, and stopWorking returns only then |
| `Worker.KillingIsKept` | libdevcore/Worker.cpp:46-49 | a stored Killing stands or is held by the thread to be put back, until the thread ends |
| `Worker.StartingIsNeverRestored` | libdevcore/Worker.cpp:46-49 | the thread never puts Starting back |
| `Worker.EndsOnlyWhenKilled` | libdevcore/Worker.cpp:25-55 | a thread ends only when told to, and there is one at most |
| `Worker.QuietUntilStarted` | libdevcore/Worker.cpp:9-76 | after stopWorking no work is done until the next startWorking |
| `Worker.StartGetsToWork` | libdevcore/Worker.cpp:9-62 | a caller that finds the worker stopped does not come back from startWorking before the thread has gone to work |
| `Worker.NearerEachStep` | libdevcore/Worker.cpp:59-90 | while a caller waits the thread can move and every move brings it nearer |
| `Worker.WaitStaysOver` | libdevcore/Worker.cpp:59-90 | what was waited for stays until the caller goes on |
| `Worker.WaitIsShort` | libdevcore/Worker.cpp:59-90 | no wait outlasts six moves of the thread |
| `ICAP.Iban` | libethcore/ICAP.cpp:17-32 | the loop computes the check number of the text |
| `ICAP.FromIBAN` | libethcore/ICAP.cpp:34-44 | parts come back exactly for accepted texts |
| `ICAP.AcceptedIsOne` | libethcore/ICAP.cpp:17-44 | for letters and digits, accepted exactly when the check is 02 to 98 and the rearranged number is 1 modulo 97 |
| `ICAP.RestIsOne` | libethcore/ICAP.cpp:17-32 | the rearranged number of an encoded text is 1 modulo 97 |
| `ICAP.IbanIsAccepted` | libethcore/ICAP.cpp:17-44 | what iban makes, fromIBAN takes apart |
| `ICAP.DetectsChange` | libethcore/ICAP.cpp:34-44 | one changed digit or letter is always found |
| `ICAP.DetectsSwap` | libethcore/ICAP.cpp:34-44 | two exchanged neighbours, digits or letters, are found unless they are 1 and B, 2 and M, or 3 and X, and these never are |
| `ICAP.DetectsCheckSwap` | libethcore/ICAP.cpp:34-44 | an exchange inside the check number or with the character before it is always found |
| `ICAP.DetectsLastCheckSwap` | libethcore/ICAP.cpp:34-44 | the exact condition under which an exchange of the last check digit with the next character is missed |
| `ICAP.ToBase36` | libdevcore/Base64.h:41-52 | the digits of the number |
| `ICAP.FromBase36` | libdevcore/Base64.h:54-60 | the value of the text in 160 bits |
| `ICAP.Letters` | libdevcore/Base64.h:41-60 | the digits of base 36 and the names that addresses begin with |
| `ICAP.ValueOfDigits` | libdevcore/Base64.h:41-60 | the value of the digits is the number |
| `ICAP.DigitsOfValue` | libdevcore/Base64.h:41-60 | a base-36 text is the digits of its value behind zeros |
| `ICAP.Encoded` | libethcore/ICAP.cpp:89-114 | the text, or a refusal for what cannot be encoded |
| `ICAP.Decoded` | libethcore/ICAP.cpp:57-87 | the address, or a refusal |
| `ICAP.RoundTrip` | libethcore/ICAP.cpp:57-114 | every 160-bit address comes back, and every indirect address in capitals, so unchanged exactly when it was in capitals |
| `ICAP.EncodedAgain` | libethcore/ICAP.cpp:57-114 | which texts come back the other way round |
| `ICAP.TwoForOne` | libethcore/ICAP.cpp:65-70 | two accepted texts for one address |
| `Base64.ToBase64` | libdevcore/Base64.cpp:50-100 | the loop computes the encoding group by group |
| `Base64.FromBase64` | libdevcore/Base64.cpp:102-147 | the loop decodes the characters before the first that is not of base 64 |
| `Base64.FindBase64CharIndex` | libdevcore/Base64.cpp:40-48 | the index of a character, 64 for any other |
| `Base64.Alphabet` | libdevcore/Base64.cpp:30-48 | the 64 characters and the padding |
| `Base64.GroupsHaveTheBits` | libdevcore/Base64.cpp:50-100 | four characters have the 24 bits of their three bytes, a shorter last group its bits and zeros |
| `Base64.RoundTrip` | libdevcore/Base64.cpp:50-147 | every byte sequence comes back |
| `Base64.EncodedLength` | libdevcore/Base64.cpp:50-100 | four characters for every three bytes begun |
| `Base64.DecodedLength` | libdevcore/Base64.cpp:102-147 | three bytes for every four characters |
| `Sponge.AbsorbBlocks` | libdevcore/SHA3.cpp:132-149 | full blocks are folded in as the sponge absorbs them |
| `Sponge.AbsorbLast` | libdevcore/SHA3.cpp:150-156 | the last block is absorbed with its pad, also when both pad bytes are one |
| `Sponge.Squeeze` | libdevcore/SHA3.cpp:157-159 | the output buffer holds what the sponge squeezes out and nothing else of it changes |
| `Sponge.Hash` | libdevcore/SHA3.cpp:141-162 | the sponge of the padded message, or -1 exactly for missing buffers and too large a rate |
| `Sponge.Sha3` | libdevcore/SHA3.cpp:190-198 | the digest for an output of 32 bytes, a refusal for any other |
| `Sponge.PadIsTenStarOne` | libdevcore/SHA3.cpp:150-152 | in bits, the pad is the suffix, a one, zeros and a one up to a whole block |
| `Sponge.Delimiters` | libdevcore/SHA3.cpp:163-176 | 0x01 delimits with no suffix, 0x1f with four ones |

## Left out

- LevelDB write batches, retries and the disk format: the disk is a map and a commit is one step.
- The side tables (`lookupAux`, `insertAux`), `FatGenericTrieDB` and `deepkill`: outside the trie's argument.
- Copying of the sixteen slots of a branch from one stream to another: a sequence with one element replaced.
- The second `next()` repeats the body of the first without a key; the model calls the first with the empty key.
- The wrap-around of reference counts, which the code keeps in 32 bits.
- `TrieKeys.OrderedTrieRoot`: takes items that are not empty. The one-pass code hashes an empty item as an empty value, and a trie cannot hold one: to it that is no value.
- `TrieDB.GenericTrieDB.Remove`: takes keys with the condition of `TrieSafety.SafeExactly` only, because off it the code reads outside its buffers and its result is not determined.
- `TrieDB.GenericTrieDB.DeleteAt`: the same condition, at the node where it stands.
- `TrieDB.GenericTrieDB.DeleteAtAux`: the same condition, at the node referred to.
- `TrieDB.GenericTrieDB.MergeAway`: takes branches that have more left than a value. A value left alone stands in slot 16, which `deleteAt` takes for a node and hands to `toHash` of RLP.h; RLP.h is not part of this model.
- `TrieDB.GenericTrieDB.Check`: takes a trie whose nodes are all in the store; the scan of a damaged one is not modelled.
- `TrieDB.GenericTrieDB.SetRoot`: a root of which the store has some nodes and lacks others is not modelled.
- What each arithmetic instruction computes, hashing, storage and logs in the interpreter: settled instruction by instruction.
- Account code and storage in the ledger: they carry no ether.
- Order of kills in `finalize`: the code's set is ordered by address, the model's list by arrival; distinct kills commute.
- Scratch buffers of three and four bytes in `Base64.ToBase64` and `Base64.FromBase64` are sequences that are reassigned, so updating them in place is not captured.
- The Keccak permutation itself.
- `ICAP.createDirect` and `ICAP.lookup`: random keys and calls into contracts.
- Network, key storage, mining, block and transaction queues, JSON configuration.
