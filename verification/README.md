# A verified model of the Miden rollup's objects and transaction host

The project models the parts of the Miden base repository that carry the most state and
branching, and proves what they promise over all inputs, all runs and all interleavings.

- **Account updates.** While a transaction runs, the host watches vault, storage and nonce events
  and records their net effect (`VaultTracker`, `DeltaTracker`). The record becomes a delta
  (`AccountDelta`), the delta is sent as bytes (`DeltaCodec`), and another party applies it to
  the old account (`Accounts`). The main theorems say exactly when this gives the account the
  transaction produced, without the bytes (`Replay`) and with them (`DeltaTransfer`).
  `RunProperties` adds what follows: no abort, a delta that depends only on the two vaults,
  conservation of amounts. `SlotRecords` says which slots a run records, and `WireFormat` which bytes
  a delta is sent as.
- **Vaults, assets and storage.** A vault is a sparse Merkle tree that refines a balance map and a
  set of non-fungible assets (`Assets`, `AssetVault`, `Holdings`). Storage is 256 typed slots with a
  commitment to their types (`AccountStorage`), and has a byte form (`StorageCodec`) whose decoder
  accepts more than the encoder writes (`StorageDecoding`).
- **Notes.** Batch trees compose into the block tree, and paths authenticate notes (`MerkleTrees`,
  `NoteTrees`). Metadata have a word form (`NoteMetadata`), scripts are packed into field elements
  (`NoteScripts`). Expected notes are put into an advice map and rebuilt from it by note-created events
  (`ExpectedNotes`). `BlockMembership` says what the check of a note against a block accepts.
  `Commitments` says what recipients, note IDs, storage layouts and account seeds commit to.
- **Scripts against interfaces.** The compiler collects call branches of a program and asks whether
  one of them stays within an account's interface (`CallBranches`). `Compatibility` says for which
  programs that is the right answer.
- **Account code and identifiers.** The sorted procedure tree and the host's index of it
  (`AccountProcedures`), and the seed search, with threads as a state machine (`SeedSearch`).

## How it is modelled

- A field element is an integer below 2^64 - 2^32 + 1, a digest is a word of four of them.
- Hash functions are parameters: every theorem holds for every hash function. Nothing is assumed
  to be injective, since a function from longer to shorter strings is not; where a property depends
  on it, the theorem returns the collision instead.
- Sparse Merkle trees are maps from indexes or keys to words whose missing entries are empty, and
  their roots are defined by recursion over the parameter `merge`.
- Depths of Merkle trees are parameters, constrained to the number of leaves of the source's tree.
- Code that updates fields is a class, code that loops is a method with invariants, both proved
  against functions on values. Theorems about runs are stated about those functions.
- Every decoder is characterised for all bytes. Those of assets and deltas return a value with a
  remainder if and only if the value is valid and the input is its encoding followed by that
  remainder. The storage decoder accepts any two encoded lists of types and values in which no
  value index is repeated or reserved, and `StorageExact` says which storage it returns.
- `apply_delta` promises no rollback and makes none. `FailedDeltaIsCutOff` says what a failed delta
  leaves: what the delta cut off before the failing operation does.
- `BTreeMap` iteration is ascending in the key order; digests are compared through a parameter
  `less`, so the theorems hold for any strict order.
- A step that would panic (`expect`, `unreachable!`) is a `None` result; the theorems show where it
  cannot occur.

## Where the code falls short of a promise

- Replay fails for some runs with zero amounts: a zero-amount fungible asset can be stored by
  `add_asset`, but is turned into a removal by the tracker. `ZeroAddBreaksReplay` gives the failing
  runs; `ReplayExact` gives the exact condition.
- An addition followed by the same removal restores a vault exactly unless it held a balance of
  zero for that faucet, which the removal drops (`AddThenRemove`, `ZeroBalanceIsDropped`).
- Storage with a non-default type for an empty slot does not come back from its bytes.
  `EmptyTypedSlotIsLost` gives such storages, `RoundTrip` is an equivalence. Encodings of storage are
  not unique (`UnusedTypeIsAccepted`).
- The compatibility check errs both ways. It refuses programs that can run within the interface,
  because a false arm without calls is forgotten and loops count as entered (`MissesSilentArm`,
  `MissesSkippedLoop`). It accepts programs that cannot, because calls after a choice are only looked
  at on the last branch (`AcceptsWithoutLastCall`). `SoundExactly`, `CompleteExactly` and
  `DecidesExactly` give the exact conditions for every program: finitely many tests, one for each
  collected branch and one for each path.
- `is_in_block` does not look at the length of a note's path. A path of 20 steps proves that the note
  is in the block. A path of 22 steps does not: it also accepts a note whose words hash to the
  recipient of a private note in the block, and the host takes any word as such a recipient
  (`RecipientPasses`, `AcceptedWithoutBeingThere`). `NotePathBinds` says what a path of any length
  proves, `LongPathPasses` and `InnerNodesPass` that no more can be said. The pairs of words in
  `InnerNodesPass`, `ShortPathWithoutNote` and `HashedLeafPasses` need not be an ID and metadata of a note.
- The commitment to a note's inputs does not tell inputs from the same inputs with further zeros, up
  to the next multiple of eight. Of two expected notes that differ in this alone only the later one can
  be rebuilt (`TrailingZeroIsLost`); inputs of equal commitment and length are equal (`PaddingExact`).
- Arrays of depth 0 and 1 have the layout element of values and maps (`TypeElementBinds`); the layout
  commitment binds all other types (`LayoutBinds`). The constructor of storage does not refuse them.
- The host panics on an event for an encrypted note, although that is a note type: the envelope it
  builds for notes that are not public exists for off-chain notes only (`AbortsExactly`).
- Script bytes whose number is 1 modulo 4 lose their last byte when packed, because the padding
  added is the remainder and not its complement. `PackingExact` is an equivalence. The stored length
  is read back, but `shrink_to` only affects capacity, so up to two padding bytes remain.
- `note_index` aliases when a batch has more than 4096 notes (`OverfullBatchAliases`), and only then
  (`IndexesDifferExactly`).
- An empty digest among the procedures sorts first and ends the host's scan at once, so that the
  index is empty (`IndexExact`).
- The documentation of the non-fungible `validate` mentions a check of the type bit that the code
  does not make; only words without that bit are routed to it. The documentation of
  `validate_seed_digest` says 24 and 32 zeros where the constants are 23 and 31. The error for too many
  updated storage items is the one for removed assets. A non-fungible asset of a wrong faucet is refused
  as not being of a fungible one (`WordErrors`). `is_valid` refuses arrays of arity 254, which its
  documentation allows (`ValidTypes`). The model follows the code in all five.

## Model

| member | source | states |
|---|---|---|
| `Replays.ReplayExact` | miden-tx/src/host/account_delta_tracker.rs:42-52 | for every finite run of successful events from every account: the recorded delta can be made and, applied to the initial account, gives exactly the final account, if and only if the nonce moved exactly when something else did and did not wrap, at most 65535 assets were added and 65535 removed on balance, and zero amounts did no harm |
| `Replays.TrackedReplayExact` | objects/src/accounts/mod.rs:169-189 | the same equivalence for any tracker that accounts for the change between two accounts |
| `Replays.StepTracks` | miden-tx/src/host/mod.rs:139-227 | each event keeps the invariant that ties the tracker to the initial and the current account |
| `Replays.RunTracks` | miden-tx/src/host/mod.rs:247-276 | the invariant holds after every run of events |
| `SlotRecords.RecordedExactly` | miden-tx/src/host/mod.rs:154-194 | for every run and every slot: the slot is recorded if and only if some event gave it a value different from the one it then had, and the recorded value is that of the last such event |
| `SlotRecords.QuietRun` | miden-tx/src/host/mod.rs:187-191 | a run that writes to slots only the values they hold changes nothing and records nothing |
| `SlotRecords.StorageListsExactly` | miden-tx/src/host/account_delta_tracker.rs:86-99 | the cleared slots are exactly the recorded ones with an empty value, the updated ones exactly the others with their value, both in ascending order |
| `Replays.StorageReplay` | miden-tx/src/host/account_delta_tracker.rs:86-99 | the recorded slots make a valid storage delta, applying it gives the reached storage, and it is empty exactly if no slot was recorded |
| `Replays.IntoStorageDeltaSets` | miden-tx/src/host/account_delta_tracker.rs:86-99 | the storage delta lists every recorded slot once, as cleared or updated, with its last value |
| `Replays.VaultDeltaFine` | miden-tx/src/host/account_delta_tracker.rs:166-209 | the vault delta is made without abort, has no duplicates, holds well-formed assets only, and replays the vault exactly when zero amounts did no harm |
| `Replays.NonceExact` | objects/src/accounts/delta/mod.rs:116-143 | the recorded nonce passes the nonce rules and is accepted by the account exactly when it moved together with other changes and did not wrap |
| `DeltaTransfer.EndToEnd` | miden-tx/src/host/account_delta_tracker.rs:42-52 | for every run: the bytes of the recorded delta, read and applied to the initial account, give exactly the final account, under the same exact condition as without the bytes |
| `DeltaTransfer.SentIsReplayed` | objects/src/accounts/delta/mod.rs:86-105 | sending a delta as bytes changes nothing: it arrives exactly if it replays |
| `DeltaTransfer.IntoDeltaExact` | miden-tx/src/host/account_delta_tracker.rs:42-52 | for every run: the conversion does not panic if and only if the nonce moved exactly when something else did and not to zero, and at most 65535 assets were added and 65535 removed on balance |
| `DeltaTransfer.TrackedDeltaExact` | miden-tx/src/host/account_delta_tracker.rs:42-52 | the same equivalence for any tracker that accounts for the change between two accounts |
| `DeltaTransfer.FailedDeltaIsCutOff` | objects/src/accounts/mod.rs:169-189 | a delta that fails leaves the account as the delta cut off before the failing operation would, with the nonce unchanged |
| `DeltaTransfer.FailureLeavesTraces` | objects/src/accounts/mod.rs:169-189 | from every account, a failing delta that does change it |
| `DeltaTransfer.ClearsComeFirst` | objects/src/accounts/storage/mod.rs:192-202 | where clearing and updating meet a reserved slot, the clear before it is made and the update after it is not |
| `VaultReplays.VaultReplayExact` | miden-tx/src/host/account_delta_tracker.rs:166-209 | the vault lists, applied to the initial vault, give the final vault if and only if zero amounts did no harm |
| `VaultReplays.ReplayOneExact` | miden-tx/src/host/account_delta_tracker.rs:166-209 | the same for the holding of a single asset |
| `VaultReplays.EntryBounds` | miden-tx/src/host/account_delta_tracker.rs:130-159 | recorded amounts stay within 2^63 - 1 of zero and non-fungible counters are 1 or -1 |
| `VaultReplays.NeverAborts` | miden-tx/src/host/account_delta_tracker.rs:166-209 | no panic in the conversion of the vault tracker, and no asset is listed twice |
| `VaultReplays.AddExplained` | miden-tx/src/host/account_delta_tracker.rs:130-143 | recording an addition keeps the tracker equal to the difference of the two vaults |
| `VaultReplays.RemoveExplained` | miden-tx/src/host/account_delta_tracker.rs:146-159 | recording a removal keeps the tracker equal to the difference of the two vaults |
| `RunProperties.PositiveReplay` | miden-tx/src/host/account_delta_tracker.rs:166-209 | with positive amounts and no zero balances, replay depends only on the nonce and the numbers of assets |
| `RunProperties.PositiveRun` | objects/src/assets/vault.rs:111-127 | runs with positive amounts never create a zero balance or a zero entry |
| `RunProperties.ZeroAddBreaksReplay` | miden-tx/src/host/account_delta_tracker.rs:180-188 | adding a zero amount of an asset the vault does not hold makes every such run fail to replay |
| `RunProperties.NoAbortAlongRuns` | miden-tx/src/host/account_delta_tracker.rs:166-239 | along every run, whatever the amounts, entries stay in range, counters are 1 or -1, the conversion does not abort and its lists pass the uniqueness rules |
| `RunProperties.CanonicalDelta` | miden-tx/src/host/account_delta_tracker.rs:166-239 | two runs of positive amounts between the same two vaults without zero balances, in any order, give the same added and removed lists |
| `RunProperties.RunIsNet` | miden-tx/src/host/account_delta_tracker.rs:217-239 | after a run of positive amounts the tracker is computed from the first and the last vault alone |
| `RunProperties.TrackerIsNet` | miden-tx/src/host/account_delta_tracker.rs:217-239 | a tracker that explains two vaults and has no zero entries is their difference |
| `RunProperties.Conservation` | miden-tx/src/host/account_delta_tracker.rs:166-209 | per faucet, the amount added minus the amount removed is the final balance minus the initial one |
| `VaultTrackers.TrackEffect` | miden-tx/src/host/account_delta_tracker.rs:217-239 | recording changes the entry of that asset alone: amounts add up and an entry whose sum is zero after a change is dropped |
| `VaultTrackers.TrackerExtensional` | miden-tx/src/host/account_delta_tracker.rs:120-124 | a tracker is determined by what it records for each asset |
| `VaultTrackers.KeysMeaning` | miden-tx/src/host/account_delta_tracker.rs:166-209 | iteration visits each tracked asset exactly once |
| `VaultTrackers.ListsFind` | miden-tx/src/host/account_delta_tracker.rs:166-209 | which assets end up in which list, with which amount |
| `VaultTrackers.ListsDifferent` | objects/src/accounts/delta/vault.rs:44-60 | the two lists together never name an asset twice |
| `VaultTrackers.ListLengthsAreCounts` | miden-tx/src/host/account_delta_tracker.rs:166-209 | the lengths of the two lists are the numbers of tracked entries above zero and of the others |
| `VaultTrackers.VaultListsInOrder` | miden-tx/src/host/account_delta_tracker.rs:166-209 | both lists name fungible assets by ascending faucet, then non-fungible ones in the order of digests |
| `DeltaTrackers.AccountVaultDeltaTracker.AddAsset` | miden-tx/src/host/account_delta_tracker.rs:130-143 | the new tracker state after an addition |
| `DeltaTrackers.AccountVaultDeltaTracker.RemoveAsset` | miden-tx/src/host/account_delta_tracker.rs:146-159 | the new tracker state after a removal |
| `DeltaTrackers.AccountVaultDeltaTracker.IntoDelta` | miden-tx/src/host/account_delta_tracker.rs:166-209 | the loops over both maps compute the specified lists, or abort where specified |
| `DeltaTrackers.PushFungible` | miden-tx/src/host/account_delta_tracker.rs:171-189 | the loop over fungible entries splits them by sign in order |
| `DeltaTrackers.PushNonFungible` | miden-tx/src/host/account_delta_tracker.rs:192-206 | the loop over non-fungible entries splits them by sign, and aborts exactly if a counter is not 1 or -1 |
| `DeltaTrackers.SplitSlots` | miden-tx/src/host/account_delta_tracker.rs:90-96 | the loop over slots splits them into cleared and updated ones in order |
| `DeltaTrackers.AccountStorageDeltaTracker.IntoDelta` | miden-tx/src/host/account_delta_tracker.rs:86-99 | the conversion computes the specified storage delta |
| `DeltaTrackers.AccountDeltaTracker.constructor` | miden-tx/src/host/account_delta_tracker.rs:32-39 | a new tracker records nothing and remembers the nonce |
| `DeltaTrackers.AccountDeltaTracker.IntoDelta` | miden-tx/src/host/account_delta_tracker.rs:42-52 | the parts are combined, validated, and abort where specified |
| `DeltaTrackers.TransactionHost.OnAccountVaultAddAsset` | miden-tx/src/host/mod.rs:201-212 | a decodable word is recorded as an addition, any other word is refused and changes nothing |
| `DeltaTrackers.TransactionHost.OnAccountVaultRemoveAsset` | miden-tx/src/host/mod.rs:216-227 | a decodable word is recorded as a removal, any other word is refused and changes nothing |
| `DeltaTrackers.TransactionHost.OnAccountStorageSetItem` | miden-tx/src/host/mod.rs:154-194 | a slot is recorded exactly when the new value differs; bad indexes and unknown slots are refused |
| `DeltaTrackers.TransactionHost.OnAccountIncrementNonce` | miden-tx/src/host/mod.rs:140-147 | the increment is recorded |
| `Accounts.Account.ApplyDelta` | objects/src/accounts/mod.rs:169-189 | the new state and the result, on success and on each error |
| `Accounts.Account.AddAssets` | objects/src/accounts/mod.rs:172-174 | additions in order, up to the first error |
| `Accounts.Account.RemoveAssets` | objects/src/accounts/mod.rs:176-178 | removals in order, up to the first error |
| `Accounts.Account.SetNonce` | objects/src/accounts/mod.rs:197-208 | the nonce only grows; otherwise nothing changes |
| `Holdings.AddEffect` | objects/src/assets/vault.rs:99-146 | when an addition succeeds and what it does to the holding of every asset |
| `Holdings.RemoveEffect` | objects/src/assets/vault.rs:156-220 | when a removal succeeds and what it does to the holding of every asset |
| `Holdings.LedgerExtensional` | objects/src/assets/vault.rs:23-26 | vault contents are determined by the holding of each asset |
| `Holdings.AddAllEffect` | objects/src/accounts/mod.rs:172-174 | different assets do not interfere: a list can be added exactly when each asset can, and the resulting holdings |
| `Holdings.RemoveAllEffect` | objects/src/accounts/mod.rs:176-178 | a list of different assets can be removed exactly when each can, and the resulting holdings |
| `Holdings.ApplyVaultEffect` | objects/src/accounts/mod.rs:169-178 | when a vault delta applies and the holding of every asset afterwards |
| `AssetVaults.ValidEntryMeaning` | objects/src/assets/vault.rs:80-82 | a stored word is a well-formed asset under its own key, and never empty |
| `AssetVaults.OneLedgerPerTree` | objects/src/assets/vault.rs:23-26 | trees and contents determine each other |
| `AssetVaults.ContentsExist` | objects/src/assets/vault.rs:23-26 | every well-formed tree has contents |
| `AssetVaults.RepresentedIsValid` | objects/src/assets/vault.rs:9-26 | the contents of every vault object respect the limits on amounts and assets, so the theorems about valid accounts apply to it |
| `AssetVaults.LedgerStaysValid` | objects/src/assets/vault.rs:99-220 | additions and removals keep every amount at most 2^63 - 1 and every asset well-formed |
| `AssetVaults.AddErrors` | objects/src/assets/vault.rs:99-146 | which additions fail, and with which error |
| `AssetVaults.RemoveErrors` | objects/src/assets/vault.rs:156-220 | each error of a removal occurs exactly if the asset is not there, or there is too little of it |
| `AssetVaults.AddThenRemove` | objects/src/assets/vault.rs:99-200 | an addition can be removed again, and that gives back the vault if and only if it did not hold a zero balance of the asset |
| `AssetVaults.ZeroBalanceIsDropped` | objects/src/assets/vault.rs:111-200 | a vault given a zero balance, and then an addition taken back, lacks that balance |
| `AssetVaults.RemoveThenAdd` | objects/src/assets/vault.rs:99-200 | what was removed can be added again and gives back the vault |
| `AssetVaults.LookupFungible` | objects/src/assets/vault.rs:67-77 | looking up a faucet finds its balance, or nothing exactly if there is none |
| `AssetVaults.LookupNonFungible` | objects/src/assets/vault.rs:50-60 | looking up a non-fungible asset finds it exactly if it is held |
| `AssetVaults.AssetVault.constructor` | objects/src/assets/vault.rs:23-26 | an empty vault |
| `AssetVaults.AssetVault.GetBalance` | objects/src/assets/vault.rs:67-77 | the balance, zero if absent, and an error for faucets of the other kind |
| `AssetVaults.AssetVault.HasNonFungibleAsset` | objects/src/assets/vault.rs:50-60 | membership, and an error for fungible assets |
| `AssetVaults.AssetVault.AddAsset` | objects/src/assets/vault.rs:99-104 | the tree refines the addition to the contents; on error nothing changes |
| `AssetVaults.AssetVault.AddFungibleAsset` | objects/src/assets/vault.rs:111-127 | the new balance is the sum and is returned; too large a sum is an error that changes nothing |
| `AssetVaults.AssetVault.AddNonFungibleAsset` | objects/src/assets/vault.rs:133-146 | the asset is inserted; a duplicate is an error that changes nothing |
| `AssetVaults.AssetVault.RemoveAsset` | objects/src/assets/vault.rs:156-167 | the tree refines the removal from the contents; on error nothing changes |
| `AssetVaults.AssetVault.RemoveFungibleAsset` | objects/src/assets/vault.rs:174-200 | the balance falls, a balance of zero is dropped, and a missing or too small balance is an error that changes nothing |
| `AssetVaults.AssetVault.RemoveNonFungibleAsset` | objects/src/assets/vault.rs:206-220 | the asset is removed; a missing one is an error that changes nothing |
| `Assets.WordExact` | objects/src/assets/mod.rs:147-157 | a word decodes to an asset if and only if it is that well-formed asset's word; the trusting decoder agrees |
| `Assets.FungibleWord` | objects/src/assets/fungible.rs:160-172 | a word is that of a fungible asset if and only if it is the amount, two zeros and the ID of a faucet whose bits 61 and 60 are 1 and 0, the amount being below 2^63 |
| `Assets.NonFungibleWord` | objects/src/assets/nonfungible.rs:145-153 | a word is a non-fungible asset if and only if its second element is the ID of a faucet with bits 61 and 60 set, and bit 61 of its last element is clear |
| `Assets.WordErrors` | objects/src/assets/mod.rs:147-157 | why a word is refused: each error occurs exactly if its fault is there and none of those looked for before it |
| `Assets.NeverEmpty` | objects/src/assets/mod.rs:101-106 | neither the word nor the key of an asset is the empty word |
| `Assets.SameKey` | objects/src/assets/mod.rs:86-93 | assets are the same exactly when their vault keys are equal, so keys of the two kinds never collide |
| `Assets.FromParts` | objects/src/assets/nonfungible.rs:50-79 | a non-fungible asset is made exactly for non-fungible faucets; it is well-formed, holds the faucet and keeps the hash except for one element and one bit |
| `Assets.FromPartsInjective` | objects/src/assets/nonfungible.rs:50-79 | which faucets and data hashes give the same asset: those equal outside the overwritten element and bit |
| `Assets.ToBytesIsWord` | objects/src/assets/fungible.rs:144-152 | the byte form is the little-endian form of the word |
| `Assets.ReadAssetExact` | objects/src/assets/mod.rs:178-194 | bytes decode to an asset and a rest if and only if they are its encoding followed by the rest |
| `Codec.WordBytesAt` | objects/src/assets/fungible.rs:144-152 | each of the 32 bytes of a word is a base-256 digit of one of its elements, low digits first |
| `AccountIds.FaucetBitMeaning` | objects/src/accounts/account_id.rs:17-23 | bit 61 is set exactly in the IDs of faucets |
| `AccountIds.TypeMeaning` | objects/src/accounts/account_id.rs:44-62 | the four account types are the four values of bits 61 and 60 |
| `AccountIds.StorageTypeMeaning` | objects/src/accounts/account_id.rs:189-196 | bit 63 tells off-chain from on-chain accounts, and bit 62 is clear in every legal ID |
| `AccountIds.OnesMeaning` | objects/src/accounts/account_id.rs:320-326 | the number of ones checked is the size of the set of bits that are set |
| `AccountStorages.WithItem` | objects/src/accounts/storage/mod.rs:210-234 | which slots can be set, and that only that slot changes; the layout and its commitment are kept |
| `AccountStorages.NewStorage` | objects/src/accounts/storage/mod.rs:114-146 | the constructor succeeds exactly without reserved or repeated indexes, commits to the layout and holds the items; otherwise it reports the reserved index or the first repeated one |
| `AccountStorages.CollectLayout` | objects/src/accounts/storage/mod.rs:114-134 | the layout loop: types of the items, defaults elsewhere, an error exactly for the reserved index |
| `AccountStorages.SlotTree` | objects/src/accounts/storage/mod.rs:142-143 | the slot tree is built exactly if indexes are distinct, and otherwise the first repeated index is reported |
| `AccountStorages.HoldsUnique` | objects/src/accounts/storage/mod.rs:114-146 | a storage is determined by the items it holds |
| `AccountStorages.LayoutInvariant` | objects/src/accounts/storage/mod.rs:176-234 | after any sequence of updates and deltas, failed ones included, slot 255 commits to the original layout |
| `Commitments.LayoutBinds` | objects/src/accounts/storage/mod.rs:176-178 | two storages with the same word in slot 255 have the same layout, or a collision of the hash function is returned; arrays of depth 0 and 1 excepted |
| `Commitments.LayoutElements` | objects/src/accounts/storage/mod.rs:136-139 | what is hashed: one element for each slot, arity in the high half and the kind or depth in the low one |
| `Commitments.TypeElement` | objects/src/accounts/storage/slot.rs:113-135 | the two halves of the element of a slot type |
| `Commitments.TypeElementBinds` | objects/src/accounts/storage/slot.rs:113-135 | the element determines the type, except that an array of depth 0 or 1 shares it with a value or a map |
| `AccountStorages.ItemsKeepLayout` | objects/src/accounts/storage/mod.rs:192-202 | setting slots keeps layout and commitment |
| `DeltaTransfer.SetsAPrefix` | objects/src/accounts/storage/mod.rs:192-202 | when updates stop at an error, the slots are those after the longest list of updates that succeeds |
| `AccountStorages.AccountStorage.SetItem` | objects/src/accounts/storage/mod.rs:210-234 | the new slots and the old value, or an error that changes nothing |
| `AccountStorages.AccountStorage.ApplyDelta` | objects/src/accounts/storage/mod.rs:192-202 | clears then updates, with the state reached on an error |
| `StorageCodecs.TypeExact` | objects/src/accounts/storage/slot.rs:67-105 | the two-byte form of slot types and its decoder are inverse on exactly the encodable types, which include the valid ones |
| `WireFormat.TypeEntryBytes` | objects/src/accounts/storage/mod.rs:241-257 | the three bytes of an entry: the slot, the kind or depth, the arity |
| `WireFormat.ValidTypes` | objects/src/accounts/storage/slot.rs:37-47 | valid types are the encodable ones, except arrays of arity 254 |
| `StorageCodecs.RoundTrip` | objects/src/accounts/storage/mod.rs:240-304 | a storage reads back as itself, with the rest of the stream, if and only if its types are encodable and no empty slot has a non-default type |
| `StorageDecoding.StorageExact` | objects/src/accounts/storage/mod.rs:277-304 | for all bytes: a storage and a rest are returned if and only if the bytes are two encoded lists, of encodable types and of values with distinct indexes other than 255, followed by that rest, and the storage is the one they describe |
| `StorageDecoding.EmptyTypedSlotIsLost` | objects/src/accounts/storage/mod.rs:295 | a storage built with a typed but empty slot does not come back |
| `StorageDecoding.UnusedTypeIsAccepted` | objects/src/accounts/storage/mod.rs:280-287 | a type listed for a slot without value is accepted and leaves no trace, so encodings are not unique |
| `StorageCodecs.Rebuilt` | objects/src/accounts/storage/mod.rs:277-304 | what comes back in general: all values, and types except those of empty slots |
| `StorageCodecs.ReadOnlyEncodable` | objects/src/accounts/storage/mod.rs:277-304 | whatever is read is a valid storage with encodable types |
| `StorageCodecs.AssignTypesMeaning` | objects/src/accounts/storage/mod.rs:290-301 | removing types from the map while reading gives each slot its own type, if no slot is listed twice |
| `StorageCodecs.WriteInto` | objects/src/accounts/storage/mod.rs:241-275 | the writing loops produce the specified stream |
| `StorageCodecs.ReadFrom` | objects/src/accounts/storage/mod.rs:278-303 | the reading loops accept and return what is specified |
| `StorageCodecs.ReadTypes` | objects/src/accounts/storage/mod.rs:280-287 | the loop fails exactly if the list does not parse, and otherwise gives each listed index the type listed last for it |
| `StorageCodecs.ReadItems` | objects/src/accounts/storage/mod.rs:290-301 | the loop fails exactly if the list does not parse, and otherwise gives each value the type of its own slot |
| `AccountDeltas.ValidateCleared` | objects/src/accounts/delta/storage.rs:51-59 | the prefix checks accept exactly distinct mutable slots, and report the first slot at fault |
| `AccountDeltas.ValidateUpdated` | objects/src/accounts/delta/storage.rs:62-74 | the same for updated slots, which must also differ from cleared ones |
| `AccountDeltas.ValidateStorage` | objects/src/accounts/delta/storage.rs:34-77 | validation accepts exactly the valid storage deltas, and reports the first fault in the order of the checks |
| `AccountDeltas.ValidateVault` | objects/src/accounts/delta/vault.rs:31-63 | validation accepts exactly the valid vault deltas, and reports too long a list or the first repeated asset |
| `AccountDeltas.NewDelta` | objects/src/accounts/delta/mod.rs:42-55 | the constructor accepts exactly the valid deltas and keeps the parts; otherwise it reports the fault of the storage, of the vault, or of the nonce, in this order |
| `DeltaCodecs.DeltaExact` | objects/src/accounts/delta/mod.rs:86-105 | for all bytes, the decoder returns a delta if and only if the constructor accepts it, its assets are well-formed and the bytes start with its encoding |
| `DeltaCodecs.DeltaSound` | objects/src/accounts/delta/mod.rs:94-105 | whatever is decoded is valid and its encoding is what was read |
| `DeltaCodecs.DeltaComplete` | objects/src/accounts/delta/mod.rs:86-105 | every valid delta survives encoding and decoding |
| `WireFormat.DeltaParts` | objects/src/accounts/delta/mod.rs:86-105 | in the bytes of every valid delta the readers of storage, vault and nonce find these parts one after the other, in this order, and leave the rest |
| `WireFormat.StorageDeltaBytes` | objects/src/accounts/delta/storage.rs:85-100 | the position of every byte: the number of cleared slots and their indexes, then the number of updated ones and for each its index and 32 bytes |
| `WireFormat.VaultDeltaBytes` | objects/src/accounts/delta/vault.rs:71-81 | the position of every byte: a two-byte count and 32 bytes for each added asset, then the same for the removed ones |
| `WireFormat.NonceBytes` | objects/src/accounts/delta/mod.rs:87-91 | no nonce is a zero byte, a nonce is a one and its eight bytes, low ones first |
| `WireFormat.ExampleBytes` | objects/src/accounts/delta/mod.rs:87-91 | the sixteen bytes of a delta that clears slot 3 and sets the nonce to 1 |
| `DeltaCodecs.StorageChecks` | objects/src/accounts/delta/storage.rs:102-160 | the incremental checks of the decoder agree with the prefix checks of validation |
| `DeltaCodecs.VaultChecks` | objects/src/accounts/delta/vault.rs:83-121 | the incremental checks of the decoder agree with the prefix checks of validation |
| `DeltaCodecs.ReadStorageDeltaFrom` | objects/src/accounts/delta/storage.rs:102-160 | the decoding loops compute the specified decoder |
| `DeltaCodecs.ReadVaultDeltaFrom` | objects/src/accounts/delta/vault.rs:83-121 | the decoding loops compute the specified decoder |
| `CallBranches.BranchList.Collect` | miden-tx/src/compiler/mod.rs:325-361 | the recursive update of the shared list extends its last branch by the branches of the block |
| `CallBranches.CollectCallBranches` | miden-tx/src/compiler/mod.rs:318-322 | the branches collected from a fresh list are those of the block alone, defined without the shared list |
| `CallBranches.BranchesArePrefixes` | miden-tx/src/compiler/mod.rs:325-361 | each branch is a prefix of the calls of some path with loop bodies run once |
| `CallBranches.LastIsAllTrue` | miden-tx/src/compiler/mod.rs:325-361 | the last branch is exactly the path that takes every true arm |
| `CallBranches.CountBound` | miden-tx/src/compiler/mod.rs:325-361 | there is at most one branch more than there are splits |
| `CallBranches.VerifyCompatibility` | miden-tx/src/compiler/mod.rs:291-314 | a program is accepted exactly if one of its branches stays within the interface; otherwise the error names the kind of script |
| `Compatibility.DecidesExactly` | miden-tx/src/compiler/mod.rs:291-361 | for every program, proxied and dynamic blocks counting as silent: the check decides for all interfaces whether some execution stays within, if and only if each collected branch leaves the program an execution and the program is accepted for each of its paths |
| `Compatibility.SoundExactly` | miden-tx/src/compiler/mod.rs:291-361 | for every program, proxied and dynamic blocks counting as silent: it is accepted only for interfaces within which it can run, if and only if it can run within each of its collected branches |
| `Compatibility.CompleteExactly` | miden-tx/src/compiler/mod.rs:291-361 | for every program, proxied and dynamic blocks counting as silent: it is accepted for all interfaces within which it can run, loops running any number of times, if and only if it is accepted for each of its finitely many paths |
| `Compatibility.CanStayExact` | miden-tx/src/compiler/mod.rs:291-361 | whether some execution stays within an interface, decided by recursion over the program |
| `Compatibility.PathsAreOncePaths` | miden-tx/src/compiler/mod.rs:325-361 | the finite set of paths is the set of once-unrolled executions |
| `Compatibility.MissesSilentArm` | miden-tx/src/compiler/mod.rs:335-342 | a conditional call is refused for the empty interface, although it need not be made |
| `Compatibility.MissesSkippedLoop` | miden-tx/src/compiler/mod.rs:345-347 | a loop that calls is refused for the empty interface, although it need not be entered |
| `Compatibility.AcceptsWithoutLastCall` | miden-tx/src/compiler/mod.rs:327-344 | a choice of two calls and then a third is accepted for the second alone, which is right only if it is the third |
| `Compatibility.SilentPathNotNeeded` | miden-tx/src/compiler/mod.rs:331-344 | a program that loses a silent path and is decided all the same |
| `Compatibility.BranchesLastIsSound` | miden-tx/src/compiler/mod.rs:325-361 | programs in which branching comes last are accepted only rightly |
| `Compatibility.SilentPathsAreComplete` | miden-tx/src/compiler/mod.rs:325-361 | programs that keep their silent paths are never refused wrongly |
| `CallBranches.Completeness` | miden-tx/src/compiler/mod.rs:291-361 | if no silent path is lost, then a program with an execution inside the interface is accepted, loops running any number of times |
| `CallBranches.SplitCompleteExactly` | miden-tx/src/compiler/mod.rs:331-344 | between complete arms, a split is complete for all interfaces exactly if a silent false arm has a silent true arm |
| `CallBranches.LoopCompleteExactly` | miden-tx/src/compiler/mod.rs:345-347 | a loop is complete for all interfaces exactly if its body is and, where it may be skipped, is silent |
| `CallBranches.BranchesArePaths` | miden-tx/src/compiler/mod.rs:325-361 | where branching comes last, every branch is a whole path |
| `CallBranches.Exactness` | miden-tx/src/compiler/mod.rs:291-361 | there, acceptance implies a path inside the interface, and is equivalent to it if no silent path is lost |
| `Compatibility.JoinAcceptsTooMuch` | miden-tx/src/compiler/mod.rs:327-330 | a join is accepted for each branch its first part pushed, wrongly so if one of its parts cannot stay within that branch |
| `CallBranches.AcceptsJoin` | miden-tx/src/compiler/mod.rs:327-330 | acceptance of a join in terms of its parts |
| `CallBranches.AcceptsSplit` | miden-tx/src/compiler/mod.rs:331-344 | acceptance of a split in terms of its arms |
| `NoteTrees.Composition` | objects/src/block/note_tree.rs:34-44 | the block root is the root of a depth-8 tree over the roots of the batch trees, unused ones being empty batch trees |
| `NoteTrees.BatchNode` | objects/src/block/note_tree.rs:70-79 | the node above a batch in the block tree is the root of the batch's own tree |
| `NoteTrees.BlockTreeExact` | objects/src/block/note_tree.rs:34-44 | the block tree is built exactly for distinct notes in range, and then holds exactly them |
| `NoteTrees.BatchTreeExact` | objects/src/batches/note_tree.rs:24-32 | the batch tree is built exactly for at most 4096 notes, and then holds exactly them |
| `NoteTrees.NoteAuthenticates` | objects/src/block/note_tree.rs:54-67 | every note of a block is verified by its own path, of one step less than the depth, at its note index |
| `NoteTrees.NotePathBinds` | objects/src/transaction/inputs.rs:367-371 | for a path of any length that verifies a note at an index: one step less than the depth proves the two leaves there, fewer steps two inner nodes, more steps that the hashes lead to a leaf; anything else yields a hash collision |
| `NoteTrees.LongPathPasses` | objects/src/transaction/inputs.rs:367-371 | the converse for longer paths: if the hashes above a pair of words lead to a leaf, the path that goes on from there verifies |
| `BlockMembership.RecipientPasses` | objects/src/transaction/inputs.rs:367-371 | a path of one step more than the depth verifies every note whose words hash to the recipient of a private note in the block, whether or not it is in the block itself |
| `BlockMembership.AcceptedWithoutBeingThere` | objects/src/transaction/inputs.rs:367-371 | for every note with valid metadata, a block holding one private note for which the check accepts it |
| `BlockMembership.CreatedNoteIsInBlock` | objects/src/block/note_tree.rs:54-67 | a note listed by the host and put into a block has valid metadata and is verified by its own path of one step less than the depth |
| `NoteTrees.InnerNodesPass` | objects/src/transaction/inputs.rs:367-371 | for every tree, height and index, the shorter path verifies the pair of inner nodes there; the pair need not be the ID and metadata of a note |
| `NoteTrees.ShortPathWithoutNote` | objects/src/transaction/inputs.rs:367-371 | in the empty tree a shorter path verifies a pair of words that is not in it; the pair need not be the ID and metadata of a note |
| `NoteTrees.HashedLeafPasses` | objects/src/transaction/inputs.rs:367-371 | a path as long as the tree is deep verifies any pair of words whose hash is a leaf; the pair need not be the ID and metadata of a note |
| `NoteTrees.LeafPairs` | objects/src/block/note_tree.rs:70-79 | different notes in range have different pairs of leaves inside the tree |
| `NoteTrees.OverfullBatchAliases` | objects/src/block/note_tree.rs:70-72 | past 4096 notes, a note has the index of a note of the next batch |
| `NoteTrees.IndexesDifferExactly` | objects/src/block/note_tree.rs:70-72 | different notes get different indexes if and only if batches hold at most 4096 notes |
| `MerkleTrees.WithLeavesExact` | objects/src/block/note_tree.rs:43 | a tree is built exactly for distinct indexes in range |
| `MerkleTrees.LeftmostLeaf` | objects/src/block/note_tree.rs:43 | even children are the left ones: for the merge that keeps its left argument, a node is the first leaf below it |
| `NoteTrees.Depths` | objects/src/constants.rs:32-60 | depths and capacities fit together |
| `NoteScripts.PackingExact` | objects/src/notes/script.rs:71-134 | packed bytes come back as a prefix if and only if their number is not 1 modulo 4, followed by at most two zeros; otherwise the last byte is lost; the hash always comes back |
| `NoteScripts.DecodeEncoded` | objects/src/notes/script.rs:111-134 | decoding succeeds exactly when the recovered bytes parse, with the original hash |
| `NoteScripts.Pack` | objects/src/notes/script.rs:87-96 | one 32-bit element for each four bytes, which is their little-endian value |
| `NoteScripts.ToElements` | objects/src/notes/script.rs:71-100 | consuming the bytes in place gives the hash, the length and the specified elements |
| `NoteScripts.EncodedAt` | objects/src/notes/script.rs:84-96 | after the hash come the number of bytes, in the field, and the values of the padded bytes four by four |
| `NoteScripts.FromElements` | objects/src/notes/script.rs:114-133 | the loop gives the specified script, or the specified error at the first element that does not fit 32 bits |
| `ExpectedNotes.RebuiltIdentity` | miden-tx/src/host/mod.rs:95-121 | after any sequence of expected notes whose kinds of keys do not collide, an event for a public note with a listed recipient gives a note with the ID the private arm computes, and only an undecodable script can prevent it |
| `ExpectedNotes.RebuiltRecipient` | miden-tx/src/host/mod.rs:95-115 | if commitments do not collide, the whole recipient comes back exactly when its program survives packing |
| `Commitments.RecipientComesBack` | miden-tx/src/host/mod.rs:95-115 | the same without assuming that recipient digests do not collide: if listed notes with the same script hash or inputs commitment have the same script or inputs, the recipient comes back exactly when its program survives packing, or a collision of the hash function is returned |
| `Commitments.DigestBinds` | objects/src/notes/recipient.rs:71-75 | equal recipient digests have equal serial numbers, script hashes and input commitments, or a collision is returned |
| `Commitments.DigestOrder` | objects/src/notes/recipient.rs:71-75 | the places of the three words in the chain of merges, seen through merges that keep one side |
| `Commitments.NoteIdBinds` | objects/src/notes/note_id.rs:33-35 | equal note IDs have equal recipients and assets, or a collision is returned |
| `Commitments.NoteIdOrder` | objects/src/notes/note_id.rs:33-35 | the recipient is merged on the left, the hash of the padded asset on the right |
| `Commitments.InputsBind` | objects/src/notes/inputs.rs:36-47 | equal input commitments come from equal padded inputs, or a collision is returned |
| `Commitments.InputsElements` | objects/src/notes/inputs.rs:36-47 | what is hashed: the inputs and fewer than eight zeros, up to a multiple of eight |
| `Commitments.PaddingExact` | objects/src/notes/inputs.rs:111-120 | inputs that are equal once padded are equal if and only if they are equally many |
| `Commitments.TrailingZeroIsLost` | objects/src/notes/inputs.rs:111-120 | a recipient and the one with a further zero input share a digest, and of the two expected notes only the later one is rebuilt |
| `ExpectedNotes.AbortsExactly` | miden-tx/src/host/mod.rs:116-121 | the host panics exactly on events for encrypted notes whose sender, tag and asset are in order |
| `ExpectedNotes.ListedIsValid` | miden-tx/src/host/mod.rs:79-93 | a listed note has valid metadata, whose word holds the four elements of the stack |
| `ExpectedNotes.HeaderErrors` | miden-tx/src/host/mod.rs:79-93 | each error of the checks on the stack occurs exactly if its fault is there and none of those before it |
| `ExpectedNotes.RebuildErrors` | miden-tx/src/host/mod.rs:96-113 | when details are missing, when they have a wrong length, when there are too many inputs |
| `NoteMetadata.MetadataExact` | objects/src/notes/metadata.rs:91-113 | a word decodes to metadata if and only if it is the word of that metadata and its sender, type and tag are consistent |
| `NoteMetadata.TagMeaning` | objects/src/notes/note_tag.rs:103-110 | a tag fits a type if and only if neither of its two highest bits is set in the code of the type |
| `NoteMetadata.TypeCodes` | objects/src/notes/note_type.rs:43-54 | the codes of the three note types, which are the only ones |
| `ExpectedNotes.AddAllHolds` | objects/src/transaction/tx_args.rs:79-108 | after any sequence of additions every key of every listed note holds data of a note with that key |
| `ExpectedNotes.AddKeeps` | objects/src/transaction/tx_args.rs:79-90 | one more note keeps this for the notes before it |
| `ExpectedNotes.KeyInjective` | objects/src/notes/inputs.rs:91-95 | the key of a commitment determines it and differs from it |
| `Commitments.KeyIsNext` | objects/src/notes/inputs.rs:91-95 | the key differs from the commitment in its last element, which is one more in the field |
| `ExpectedNotes.PadInputs` | objects/src/notes/inputs.rs:111-120 | the values followed by fewer than eight zeros, to a multiple of eight |
| `ExpectedNotes.DetailsWords` | objects/src/notes/recipient.rs:62-68 | where the three words of a recipient's details are |
| `ExpectedNotes.TransactionArgs.AddExpectedOutputNote` | objects/src/transaction/tx_args.rs:79-90 | the map gains the recipient's details, the unpadded inputs and the packed script, under their three keys |
| `ExpectedNotes.TransactionArgs.ExtendExpectedOutputNotes` | objects/src/transaction/tx_args.rs:101-108 | the map is what adding the notes one after the other gives, later entries winning |
| `ExpectedNotes.NoteHost.OnNoteCreated` | miden-tx/src/host/mod.rs:71-126 | the checks of the stack in order, the note that is listed, or the error or panic and an unchanged list |
| `AccountProcedures.IndexExact` | miden-tx/src/host/account_procs.rs:18-38 | with the whole tree loaded, the index knows exactly the procedures if and only if none is the empty digest, and is empty otherwise; each index points to a leaf with that digest |
| `AccountProcedures.IndexAgreesWithTree` | miden-tx/src/host/account_procs.rs:18-55 | with any part of the tree loaded, a lookup succeeds exactly for loaded procedures and gives a place where the tree holds them |
| `AccountProcedures.NewIndexMap` | miden-tx/src/host/account_procs.rs:18-38 | the scan with its break: every leaf seen before the first empty one, at the last index where it was seen |
| `AccountProcedures.IndexMapIsUnique` | miden-tx/src/host/account_procs.rs:18-38 | the description of the scan determines the map |
| `AccountProcedures.Reproducible` | objects/src/accounts/code.rs:183-199 | the root does not depend on the order in which procedures are listed |
| `AccountProcedures.BuildProcedureTree` | objects/src/accounts/code.rs:183-199 | the leaves are the procedures, sorted by their bytes, from index 0 on |
| `AccountProcedures.NewCode` | objects/src/accounts/code.rs:54-75 | one to 256 procedures are accepted, with the two errors |
| `AccountProcedures.EmptyIsLeast` | objects/src/accounts/code.rs:187 | the empty digest sorts before every other |
| `AccountProcedures.DigestOrderMeaning` | objects/src/accounts/code.rs:185-189 | digests are compared by the first of their 32 bytes that differs, elements and their bytes in ascending order |
| `SeedSearch.SearchIsSafe` | objects/src/accounts/seed.rs:22-121 | under every interleaving, a returned seed makes an account ID of the requested kind, is the first usable one on a worker's chain, and no worker stops without sending before the main thread has an answer |
| `SeedSearch.FirstMessageWins` | objects/src/accounts/seed.rs:51-66 | under every interleaving, the answer is the seed of the first message any worker sent, and the other messages stay in their order |
| `SeedSearch.SearchIsLive` | objects/src/accounts/seed.rs:22-67 | under every interleaving, until the search returns some thread can move, and messages are neither lost nor made up |
| `SeedSearch.SearchProgresses` | objects/src/accounts/seed.rs:92-120 | under every interleaving, if a worker's chain holds a usable seed at place k, then until there is a message or an answer that worker can move and has had fewer than 4k + 4 turns |
| `SeedSearch.SearchEndsExactly` | objects/src/accounts/seed.rs:156-176 | there is a seed to return exactly if the chain holds a usable one |
| `SeedSearch.RunKeeps` | objects/src/accounts/seed.rs:22-121 | the invariant of all reachable states |
| `SeedSearch.OneThreadAgrees` | objects/src/accounts/seed.rs:123-132 | with one thread, the concurrent search returns the seed of the single-threaded one |
| `SeedSearch.GetAccountSeedSingle` | objects/src/accounts/seed.rs:136-177 | the loop returns the first usable seed of the chain |
| `SeedSearch.WorkersEnd` | objects/src/accounts/seed.rs:93-102 | once the stop flag is up, every worker ends within two million of its own steps, in spite of counter wrap-around |
| `SeedSearch.SuitsMeansUsable` | objects/src/accounts/account_id.rs:134-139 | the test in the loop is exactly that an account of the requested kind can be created |
| `SeedSearch.UsableInBits` | objects/src/accounts/account_id.rs:134-139 | a seed is usable if and only if its digest has enough trailing zeros, five ones in the ID, and the requested kind in the four highest bits of the ID |
| `SeedSearch.NewAccountIdExact` | objects/src/accounts/account_id.rs:134-139 | each error of the constructor, in order, in terms of the digest; a success is its first element |
| `Commitments.SeedDigestBinds` | objects/src/accounts/account_id.rs:382-389 | equal digests have equal seeds, code roots and storage roots, or a collision is returned |
| `Commitments.DigestElements` | objects/src/accounts/account_id.rs:382-389 | the sixteen hashed elements are the seed, the code root, the storage root and four zeros |
| `SeedSearch.StartSeedOfWord` | objects/src/accounts/seed.rs:79-86 | the 32 bytes of a word give that word as the first seed |
| `SeedSearch.WorkersStartApart` | objects/src/accounts/seed.rs:34-38 | two workers start from the same bytes if and only if their numbers agree modulo 256, and their bytes differ in the first one only |
| `SeedSearch.TrailingZerosMeaning` | objects/src/accounts/account_id.rs:240-257 | the proof of work is divisibility by a power of two |
| `SeedSearch.EnoughWorkMeaning` | objects/src/accounts/account_id.rs:240-257 | the last element must be divisible by 2^31 for faucets and by 2^23 for other accounts |

## Left out

- The transaction kernel in assembly, the VM, the prover and the verifier: the model starts from the event stream they produce.
- Account code updates: the tracker does not record them either; replay is about accounts with unchanged code.
- Compilation: programs are code blocks or opaque bytes, and the program decoder is a parameter.
- What proxied and dynamic blocks call: the collector skips them, and executions of the model make no calls in them, so the results about compatibility are about the other calls of a program.
- `Account::hash`, `AssetVault::new`, and the byte forms of accounts, vaults, notes and code: they would only add easy members.
- `AccountStorage::get_item`, accessors, `Display` and `serde` derives, logging: thin.
- Block headers, transactions, batches as objects, `InputNotes` and the chain MMR: not part of this model.
- Constructors of note tags from account IDs and execution modes: a tag is any 32-bit number that fits the note type.
- `TransactionArgs` other than its advice map, and data added to the map by transaction script inputs, which is an arbitrary initial map here.
- Usize overflow in note indexes: indexes are unbounded integers.
- The compiled profile of the seed search: its counter wraps around as in a release build; a debug build would end the worker instead.
- SeedSearch.GetAccountSeedSingle: takes the place of a usable seed as a ghost argument, because the source's loop runs for ever when the chain holds none (`SearchEndsExactly`).
- SeedSearch.SearchIsLive: says that some thread can always move; that the search then returns depends on the schedule and on the chains, for which see `SearchProgresses`.
- Accounts.Account.ApplyDelta: requires well-formed assets, which the type of the source's assets guarantees for all values built by checked constructors or decoders.
