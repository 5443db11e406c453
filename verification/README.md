# A model of YeetFile

YeetFile keeps files and passwords of its users on a server that only ever sees encrypted data.
This project models the parts of its server and its command line client that hold state, and
proves what they promise:

- **The vault.** Folder rows form trees; a share is a second row of the same folder for another
  user (`Tables`, `Ownership`). The server collects wrapped keys with a recursive query and the
  client unwraps them one after another (`KeyChain`). The operations on the tables are values in
  `VaultOps`, and methods on mutable tables in `VaultDb`; `VaultInvariant`, `FolderDelete` and
  `VaultRun` prove what they keep, what a recursive deletion removes, and what holds in every
  state that requests can lead to. `DeleteOrder` says exactly when a deletion can fail, `FileCopies` and
  `TidyRuns` when copies of files stay with their files, `VaultAccess` and `FileAccess` who reaches a
  folder and a file, and `VaultEffects` what each request is accepted for and does to rows and access.
  `VaultFailures` holds the tables in which accepted requests go wrong. Cryptography is symbolic:
  `Rsa(user, key)` and `Aes(outer, key)`.
- **Transfers.** The sparse checksum array of an upload and who finishes it (`Multipart`), every
  interleaving of concurrent chunk requests to both storage backends (`Uploads`), and the way of a
  file through splitting, encryption, storage, range reads and writes at offsets (`RoundTrip`).
- **Metering and lifetimes.** The storage meter (`StorageMeter`), and sent files with their download
  counter and the bytes that the cache holds of them (`Sent`).
- **Billing dates.** The Gregorian calendar with Go's normalisation (`Calendar`) and the monthly
  refresh (`Refresh`).
- **Protocols and codecs.** Background tasks on several servers (`Cron`), the file cache (`Cache`)
  and what it holds of a file over a run of requests and evictions (`CacheFill`), the search for a
  free file name (`SaveName`), the router, its address formatter and its table (`Router`,
  `RouteTable`), Base64 and share links (`Base64`, `Links`). `Strings`, `Results` and `Constants`
  serve the others.

Random identifiers, keys and initialisation vectors, clocks, the order of concurrent steps, the
order in which a query or a map returns rows, and the answers of the remote storage are parameters
or are chosen arbitrarily. `dafny verify dfyconfig.toml` checks everything.

Where the code differs from what its documentation or its authors seem to intend, the model follows
the code:

- `backend/db/uploads.go:73-79` announces that all NULL entries are followed by the placeholder;
  the array is assigned by part number, and slot 1 holds the placeholder until part 1 is recorded.
- `backend/cache/cache.go:21-22` says that files being written count for the size of the cache;
  the map is never read for that purpose.
- A recipient cannot unwrap everything below a share: `RecipientUnwindsIffSharedAtTop` says when.
- Removing a share with an item that does not belong to the share leaves a row behind:
  `RemoveShareKeepsIff`, and `MismatchedShare` for an input; so does the endpoint for files when it is
  given the share of a folder: `FileUnshareKeepsIff`, `FolderShareAsFileShare`. A folder created under
  the id of a recipient's reference leaves the tree: `NewFolderKeepsIff`, `ReferenceAsParent`. An owner
  who gives up the own folder as if it were a share leaves what lies in it and refers to it:
  `LeaveShareKeepsIff`, `OwnFolderLeft`. A deletion in a tree of mixed kinds leaves the other kind:
  `TakesAllIffOneKind`; editing a file can make a tree mixed: `EditKeepsOneKindIff`.
- A recipient who may only read can create folders, but not upload files: `ReadOnlyCreatesFolders`.
- A recursive deletion gets stuck halfway at a file that a recipient has put into the folder and
  that has been shared again: `ForeignFileSticks`; `MayFailIffStuck` says exactly when this can happen.
  What is left is consistent: `DeletionKeeps`. A user who does not own the folder always gets an error,
  after files may have gone: `DeleteVaultFolder`.
- The stored object of a file is deleted before the question whether the user may edit the file, so that
  a refused deletion can lose it: `ErasedInVainIff`, `ReaderLosesObject`.
- `ShareFile` checks neither that the recipient is another user nor that the upload is complete. A
  file shared with its owner can be edited or not, depending on the row that comes first:
  `SelfShareIsAmbiguous`. A copy of an unfinished upload keeps a wrong length: `FinishKeepsSizesIff`.
- A second share of a file may copy the first recipient's copy, because the row is looked up without its
  owner. Such a copy is not deleted with the file, and then refers to nothing: `CopyKeepsFlatIff`,
  `DropLeavesNoneIff`, `SecondShareCopiesCopy`.
- The B2 backend records a checksum before the part is stored and depends on the client to send
  the final chunk last: `AllPartsIff`, `B2NeedsTheOrder`. A part stored by its sixth call is reported
  as failed: `UploadPart`.
- Chunks are appended to a cached file in the order of the requests, and the file counts as complete
  by its size. After requests out of order, which the command line client's concurrent workers may
  make, later requests can get the bytes of another chunk: `OwnBytesIff`, `TwoOneOne`, `OwnChunkIff`,
  `OutOfOrderServesWrong`.
- A cached file may stay locked after it has been read: `LockIsReturnedIff`. Eviction loops forever
  when the locked files leave no room: `NeverFits`, `OneLockedFileBlocks`.
- Two servers may run a task in one interval: `SecondRunInInterval`. `RunsInsideIff` says from which
  states, and `SpacedFromLastOnly` why a run is spaced from the one before it only.
- Aborting an upload refunds only the refused chunk, and with a chunk number above 1 not even that,
  because the loop of `abortUpload` (`backend/server/transfer/vault/vault.go:196-198`) does not end:
  `AbortKeepsIff`. The meter then passes the limit: `LimitIsKeptIff`.
- A server whose address contains "/send" is not found again in a link: `LinkRoundTrip`.

## Model

| member | source | states |
|---|---|---|
| Ownership.GetFolderOwnership | backend/db/folders.go:340-368 | succeeds exactly if the user has a row of the folder, and gives the permission of such a row and whether the user owns the folder |
| Ownership.PathUpClimbs | backend/db/vault.go:40-65 | the climb visits successive parents and no folder twice, so the recursion ends |
| Ownership.CheckFindsNearest | backend/db/vault.go:40-65 | the answer is the user's row at the nearest ancestor-or-self that has one, and there is an answer exactly if some ancestor-or-self has one |
| Ownership.OwnerReaches | backend/db/vault.go:40-65 | the owner of a folder is found at any depth, as its owner, by the folder's own row and with the right to modify |
| KeyChain.UnwindKeySequence | cli/crypto/vault.go:78-100 | the loop opens the first key with the private key and each next one with the key before, and fails where one does not open |
| KeyChain.GetKeySequence | backend/db/folders.go:470-513 | the recursive query keeps one row per level up to the root, the asking user's own if there is one and any otherwise; there is an answer exactly for an existing folder |
| KeyChain.ChainKey | cli/commands/vault/items/items.go:197-227 | how each folder of a chain is wrapped: directly below the root for the owner, deeper under the parent's key |
| KeyChain.LevelContents | backend/db/folders.go:482-491 | which rows a level of the query can hold: rows of the ancestor at that distance, or roots of recipients further down |
| KeyChain.SelectionLength | backend/db/folders.go:470-513 | every selection has exactly one row per folder of the chain up to the root |
| KeyChain.ClientKeyExactly | cli/crypto/vault.go:78-100 | unwrapping the selected rows succeeds exactly if they are the user's row at the top and the original rows below it, and then gives the folder's key |
| KeyChain.UnwindIsSound | cli/crypto/vault.go:45-100 | whatever rows the server selects, no user unwraps a wrong key |
| KeyChain.OwnerUnwinds | backend/db/folders.go:470-513 | what the server selects for the owner always unwraps to the folder's key, at any depth and whatever is shared inside the tree |
| KeyChain.RecipientUnwindsIffSharedAtTop | backend/db/folders.go:470-513 | a recipient unwraps the key for every choice of the query if and only if the one share sits directly below the sharer's root and nothing in between is shared |
| VaultInvariant.NewRootKeeps | backend/db/folders.go:14-29 | a new root folder keeps the tables consistent: trees with one owner each, shares and rows one to one with equal permissions, one name per folder |
| VaultInvariant.NewFolderKeepsIff | backend/db/folders.go:31-57 | a new folder keeps the tables consistent if and only if its parent is named by the folder's own id |
| VaultInvariant.ShareFolderKeeps | backend/db/folders.go:517-571 | sharing a folder adds an entry and a row that correspond, and keeps everything else |
| VaultInvariant.ModifyShareKeeps | backend/db/sharing.go:57-97 | a permission edit changes the entry and its row alike |
| VaultInvariant.EditEntryKeeps | backend/db/sharing.go:57-97 | the same whoever asks and whatever item is named, as the update follows the entry |
| VaultInvariant.FilesOnly | backend/db/vault.go:251-309 | requests about files and their entries leave the folders consistent |
| VaultInvariant.RemoveShareKeepsIff | backend/db/sharing.go:100-129 | removing a share keeps entries and rows in correspondence if and only if the named entry is one of the named folder |
| VaultInvariant.FileUnshareKeepsIff | backend/db/sharing.go:100-129 | removing a share at the endpoint for files keeps the tables consistent if and only if the entry is not of a folder |
| VaultInvariant.LeaveShareKeepsIff | backend/db/folders.go:596-615 | giving up a row keeps the tables consistent if and only if no other row lies in that folder or refers to it, which holds for every reference; row and entry go together |
| VaultInvariant.RenameKeeps | backend/db/folders.go:575-593 | renaming reaches all rows of a folder, so they agree on the name |
| VaultInvariant.DropKeeps | backend/db/folders.go:624-639 | removing whole subtrees keeps the tables consistent |
| VaultDb.Db.NewFolder | backend/db/folders.go:31-57 | the statements reach the specified tables: the new folder belongs to the owner of its parent, and users without access get an error and no change |
| VaultDb.Db.ShareFolder | backend/db/folders.go:517-571 | the checks in their order with their errors, and otherwise the new row and entry |
| VaultDb.Db.UpdateVaultFolderName | backend/db/folders.go:575-593 | all rows of the folder get the name, for users who may edit it |
| VaultDb.Db.DeleteSharedFolder | backend/db/folders.go:596-615 | the recipient's row and its entry go, nothing else |
| VaultDb.Db.ModifyShare | backend/db/sharing.go:57-97 | entry and row change together, for users who may edit the item and for entries of theirs; the same for files |
| VaultDb.Db.RemoveShare | backend/db/sharing.go:100-129 | the specified tables: the row goes if the entry matches, the entry in any case; the same for files; VaultEffects.ShareIsRemoved says what that means |
| VaultDb.Db.GetFileFolderID | backend/db/vault.go:438-467 | the folder of the only row, or of the user's row when there are several, and an error exactly otherwise |
| VaultDb.Db.RetrieveVaultMetadata | backend/db/vault.go:519-590 | in consistent tables a user gets a row of the file only if some row by which it may be looked up lies in a folder that the user owns or that is shared with the user on the way up, or is shared from there itself; and an error only if some such row does not, or there is none |
| VaultDb.Db.CanEditFile | backend/db/sharing.go:192-225 | in consistent tables editing is allowed only if some such row lies in a folder that the user owns or whose nearest entry for the user allows changes, and refused only if some does not, or there is none |
| VaultDb.Db.ShareFile | backend/db/vault.go:251-309 | the checks with their errors, and otherwise a copy in the recipient's root folder that refers to the row that was read, and an entry |
| VaultDb.Db.UpdateVaultFile | backend/db/vault.go:327-345 | all rows that refer to the file get the new kind, for users whom some order of the rows lets edit it |
| VaultDb.Db.UpdateMetadata | backend/db/metadata.go:92-111 | the file's own row gets the length of the stored object, copies keep theirs |
| VaultDb.Db.DeleteSharedFile | backend/db/vault.go:407-426 | the recipient's copy and its entries go, nothing else |
| VaultDb.Db.DeleteVaultFile | backend/server/transfer/vault/vault.go:150-191 | for any user and file: the metadata is read, then the stored object goes, then editing may be refused, each as some order of the rows allows; on success all rows and entries that refer to the file go and the length of the row read, without overhead, is returned; otherwise no row changes |
| VaultDb.Db.GetVaultItems | backend/db/vault.go:67-167 | for users with access exactly the file rows of the folder of one kind; for a root folder exactly the user's rows of both kinds |
| VaultDb.Db.GetSubfolders | backend/db/folders.go:138-239 | for users with access exactly the folder rows below a folder of one kind, for a root folder of both, each with fewer steps to go |
| VaultDb.Db.DeleteFolderRows | backend/db/folders.go:624-639 | the rows and entries of one folder go exactly if the user is found as owner, and nothing changes otherwise |
| VaultDb.Db.DeleteSubfolders | backend/server/transfer/vault/vault.go:84-147 | the loop over subfolders, in any order, removes exactly their subtrees and adds up what they free; or it gets stuck, and then a file that may refuse deletion exists and whole parts are gone; below another user's folder no folder row ever goes |
| VaultDb.Db.DeleteItems | backend/server/transfer/vault/vault.go:84-147 | the loop over files, in any order, removes exactly the rows that refer to these files and adds up their sizes, or gets stuck in the same sense |
| VaultDb.Db.DeleteVaultFolder | backend/server/transfer/vault/vault.go:84-147 | the recursion ends; an owner's deletion below the root removes every folder row of the subtree of that kind, every row and sharing entry that refers to one of its files, leaves all other rows as they are and returns the plaintext sizes; it stops with an error only if some file of the subtree may refuse deletion, and then exactly a part of the subtree, closed downwards, is gone; for anybody else it ends with an error and no folder row goes |
| FolderDelete.SubtreeSplits | backend/server/transfer/vault/vault.go:84-147 | a subtree is its top and the subtrees of the direct subfolders, which the recursion follows |
| FolderDelete.TakesAllIffOneKind | backend/server/transfer/vault/vault.go:84-147 | a deletion takes the whole subtree with all files if and only if all of it is of the kind asked for |
| FolderDelete.DeletionKeeps | backend/server/transfer/vault/vault.go:84-147 | deleting a subtree of one kind keeps the tables consistent, also if it gets stuck halfway |
| FolderDelete.OwnersMayDelete | backend/server/transfer/vault/vault.go:150-191 | some order of the rows makes the queries for deleting a file of the user's own tree fail if and only if none of its rows can be found for the user, or one in the user's root folder may be found and some row of the user is read-only |
| DeleteOrder.FailsExactlyAt | backend/server/transfer/vault/vault.go:84-147 | in whatever order folders and files of the subtree go, each file after none of the folders that hold it, a step can fail exactly if it is for a file that could refuse deletion in the beginning |
| DeleteOrder.MayFailIffStuck | backend/server/transfer/vault/vault.go:84-147 | in every such order an owner's deletion can end with an error if and only if some file of the subtree may refuse deletion; otherwise it succeeds for all orders of the rows |
| DeleteOrder.OrderExists | backend/server/transfer/vault/vault.go:84-147 | every subtree has such an order |
| FolderDelete.ErasedInVainIff | backend/server/transfer/vault/vault.go:150-191 | for a file without copies, outside of the user's root folder, deletion loses the stored object and keeps the row if and only if the user has access to the file and not the right to change its folder |
| FolderDelete.EditKeepsOneKindIff | backend/db/vault.go:327-345 | editing a file keeps a tree of one kind, which deletion takes as a whole, if and only if the file is not in it or stays of its kind |
| FolderDelete.UnresolvableFails | backend/db/vault.go:438-467 | a deletion always stops with an error if some file in the subtree has copies and none of its rows is the user's |
| FolderDelete.CopyKeepsSizes | backend/db/vault.go:251-309 | sharing keeps the lengths of copies and files equal, so that deletion returns the files' sizes |
| FolderDelete.FinishKeepsSizesIff | backend/db/metadata.go:92-111 | finishing an upload keeps them equal if and only if there was no copy yet or the length does not change |
| FileCopies.CopyKeepsFlatIff | backend/db/vault.go:251-309 | with every row a file or the copy of a file, sharing keeps it so if and only if the row that was read is the file itself |
| FileCopies.DropLeavesNoneIff | backend/db/vault.go:348-357 | deletion leaves no row that refers to a missing one if and only if no copy of a deleted file has been copied itself |
| FileCopies.LeaveKeepsFlatIff | backend/db/vault.go:407-426 | giving up a row of a file keeps every other row a file or the copy of one if and only if no other row refers to it |
| FileCopies.UnshareKeepsFlatIff | backend/db/sharing.go:100-129 | so does removing a share of a file: if and only if no row is left that refers to the recipient's rows |
| VaultRun.ChainExists | backend/db/folders.go:31-57 | every folder has its chain of ancestors up to its owner's root |
| VaultRun.ClientWrapsRight | cli/crypto/vault.go:45-73 | the key of a new folder is wrapped the way its place in the tree demands |
| VaultRun.OpensTheKey | cli/commands/vault/share/share.go:59-104 | what a client opens in order to share it is the key of the shared folder |
| VaultRun.StepKeeps | cli/commands/vault/share/share.go:59-104 | every request about folders, files and shares that the client software makes, with what it wraps for it, keeps the tables consistent, copies in root folders and every key wrapped as its place demands |
| VaultRun.RunKeeps | backend/db/folders.go:31-57 | in every reachable state the folders form trees with one owner each, entries and references correspond with equal permissions, the rows of a folder have one name, copies of files lie in root folders, and keys are wrapped in order |
| VaultRun.OwnersAlwaysUnwrap | backend/db/folders.go:470-513 | in every reachable state an owner unwraps the key with which the folder was created |
| VaultRun.NobodyUnwrapsWrongKeys | backend/db/folders.go:470-513 | in no reachable state does anyone unwrap a key that is not the folder's |
| VaultRun.RecipientsUnwrapIff | backend/db/folders.go:470-513 | in every reachable state another user unwraps the key, whatever rows are selected, if and only if the share is the one at the top |
| VaultRun.OwnersKeepRights | backend/db/vault.go:40-65 | in every reachable state owners have full rights to their folders |
| VaultRun.ReachableIsSound | backend/server/transfer/vault/vault.go:84-147 | every reachable state meets what the deletion theorem assumes |
| VaultRun.DeleteReachable | backend/server/transfer/vault/vault.go:84-147 | running the recursive deletion of an owner in any reachable state, finished or stuck, leads to a reachable state again |
| VaultAccess.RowIffNamed | backend/db/folders.go:340-368 | who is not the owner has a row of a folder exactly if a sharing entry names that user, and with the permission of the entry |
| VaultRun.AccessIffOwnedOrNamed | backend/db/vault.go:40-65 | in every reachable state a folder is reached by its owner with full rights, by those whom an entry of it or of a folder above it names, with the permission of the nearest such entry, and by nobody else |
| VaultAccess.FindsWhatIsSeen | backend/db/vault.go:40-65 | for any row of consistent tables: it is found exactly for its owner and for those whom an entry on the way up names, with the right to modify exactly for the owner and where the nearest such entry gives it |
| FileAccess.ReadsWhatIsOpen | backend/db/vault.go:519-590 | who may and who may not read a file, exactly, in terms of rows and entries |
| FileAccess.OnlyRowDecides | backend/db/vault.go:519-590 | for a file without copies reading and refusing exclude each other: a stranger to the folder and to the file is refused |
| FileAccess.EditsWhatIsAllowed | backend/db/sharing.go:192-225 | who may and who may not edit a file, exactly, in terms of rows and entries |
| VaultEffects.RootIsCreated | backend/db/folders.go:14-29 | a new user gets a root folder with the given key, and nothing else changes |
| VaultEffects.FolderIsCreated | backend/db/folders.go:31-57 | a folder can be created exactly where the user sees the parent; it has the key, name and kind that were given and belongs to the owner of the parent |
| VaultEffects.FolderIsRenamed | backend/db/folders.go:575-593 | a folder can be renamed exactly by those who can change it; all its rows, and no others, get the given name |
| VaultEffects.FolderIsShared | backend/db/folders.go:517-571 | exactly an owner can share a folder below the root, with another user to whom it is not shared yet; row and entry carry the given key and permission |
| VaultEffects.EntryIsEdited | backend/db/sharing.go:57-97 | the permission of the user's entry, and of the recipient's rows for it, becomes the given one; nothing else changes |
| VaultEffects.RecipientGetsPermission | backend/db/sharing.go:57-97 | after an edit the recipient reaches the folder with exactly the given permission |
| VaultEffects.ShareIsRemoved | backend/db/sharing.go:100-129 | after the removal the recipient has no row of the folder, the entry is gone, all else is as it was, and the recipient reaches the folder exactly if a folder above it is shared as well |
| VaultEffects.ShareIsLeft | backend/db/folders.go:596-615 | exactly the user's row goes, with the entries for that folder and user |
| VaultEffects.LeftIsUnreached | backend/db/folders.go:596-615 | a recipient who has given up a share has no row of the folder |
| VaultEffects.FileIsAdded | backend/db/vault.go:176-225 | a file can be added exactly where the user can change the folder, with a name, a length and chunks; it is what was asked for |
| VaultEffects.FileIsCopied | backend/db/vault.go:251-309 | a copy lies in the recipient's root folder, has the size and kind of the row read, and with the entry the given permission |
| VaultEffects.FileShareIsRemoved | backend/db/sharing.go:100-129 | the entry goes, and exactly the recipient's rows of the file if the entry is the user's and of that file |
| VaultEffects.FileIsLeft | backend/db/vault.go:407-426 | exactly the user's row goes, with the entries for that file and user |
| VaultEffects.FileIsUpdated | backend/db/metadata.go:92-111 | a finished upload sets the length of one row, an edit the kind of all rows of the file, and nothing else |
| VaultEffects.DeletionIsExact | backend/server/transfer/vault/vault.go:84-147 | a deletion that succeeds takes exactly the rows and entries that refer to a folder or file of the subtree |
| TidyRuns.TidyKeeps | backend/db/vault.go:251-309 | requests that finish uploads before they are copied, share files and not copies, and take rows with those that refer to them keep copies of the same size and kind as their files |
| TidyRuns.TidyRunKeeps | backend/db/metadata.go:92-111 | so in every state that such requests lead to |
| TidyRuns.TidyDeletion | backend/server/transfer/vault/vault.go:84-147 | in every such state a deletion that succeeds returns exactly the plaintext sizes of the files of the subtree and leaves no row that belonged to one |
| VaultFailures.ReferenceAsParent | backend/db/folders.go:31-57 | consistent tables in which a folder below a reference is accepted and breaks them |
| VaultFailures.MismatchedShare | backend/db/sharing.go:100-129 | consistent tables in which a share is removed in the name of another folder and the recipient keeps the row |
| VaultFailures.OwnFolderLeft | backend/db/folders.go:596-615 | consistent tables in which an owner gives up a shared folder and breaks them |
| VaultFailures.FolderShareAsFileShare | backend/db/sharing.go:100-129 | consistent tables in which the endpoint for files removes the share of a folder and the recipient keeps the row |
| VaultFailures.ReadOnlyCreatesFolders | backend/db/folders.go:31-57 | a recipient with a read-only share may create a folder, but not upload a file |
| VaultFailures.ReaderLosesObject | backend/server/transfer/vault/vault.go:150-191 | a read-only recipient's deletion of a file fails in every order of the rows, and the stored object is lost |
| VaultFailures.SecondShareCopiesCopy | backend/db/vault.go:519-590 | the second share of a file may copy the first copy; deleting the file then succeeds and leaves a row that refers to nothing, without its entry |
| VaultFailures.ForeignArises | backend/db/vault.go:251-309 | how a recipient's file in the owner's folder gets a copy: the server accepts the upload and the sharing |
| VaultFailures.ForeignFileSticks | backend/server/transfer/vault/vault.go:84-147 | every deletion of that folder by its owner ends with an error |
| VaultFailures.SelfSharedArises | backend/db/vault.go:251-309 | a file can be shared with its owner |
| VaultFailures.SelfShareIsAmbiguous | backend/db/sharing.go:192-225 | then one order of the rows lets the owner edit the file and another one does not |
| Multipart.Assign | backend/db/uploads.go:64-85 | assigning past the end of a Postgres array fills the gap with NULLs, all other slots stay |
| Multipart.UploadRow.UpdateChecksums | backend/db/uploads.go:64-85 | one slot is assigned and the array without its NULLs, in order, is returned |
| Multipart.RemoveNullsSize | backend/db/uploads.go:64-85 | the returned array has as many values as slots are filled, and the first slot's value first |
| Multipart.CompleteIffAllRecorded | backend/db/uploads.go:64-85 | the test for a finished upload succeeds exactly if every part has been recorded, in whatever order, and the checksums are then in part order |
| Uploads.RecordKeeps | backend/storage/s3.go:143-182 | recording a checksum keeps the invariant of all interleavings: only the request that recorded last holds a complete answer |
| Uploads.StoreKeeps | backend/storage/b2.go:127-192 | storing a part keeps that invariant, before recording in S3 and after it in B2 |
| Uploads.FinishKeeps | backend/storage/s3.go:143-182 | deciding about the end keeps that invariant |
| Uploads.LastHasAllParts | backend/storage/b2.go:127-192 | when the request that recorded last decides, every part is stored: always with S3, with B2 under the client's order |
| Uploads.ExactlyOneFinishes | backend/storage/s3.go:143-182 | over all interleavings of requests for chunks 1 to n at most one finishes the upload, exactly one once all are answered, with the checksums in part order |
| Uploads.FinishesOverAllParts | cli/transfer/upload.go:160-191 | the request that finishes does so over all n parts: with S3 in any interleaving, with B2 if the client sends the final chunk last |
| Uploads.B2NeedsTheOrder | backend/storage/b2.go:127-192 | without that order B2 can finish while a part is missing, for every number of chunks and with all checksums right |
| Uploads.AllPartsIff | backend/storage/b2.go:127-192 | the finishing request sees all parts in every interleaving if and only if the backend is S3 or the final chunk is sent last |
| Uploads.CompletedParts | backend/storage/s3.go:210-245 | the checksums are numbered from 1 in their order |
| Uploads.ObjectIsTheChunks | backend/storage/b2.go:194-214 | whatever the interleaving, the stored object is the encrypted chunks one after another |
| Uploads.UploadPart | backend/storage/b2.go:127-192 | the retry loop reports success exactly if one of the first five calls succeeds, and makes at most six |
| RoundTrip.DecryptUndoesEncrypt | cli/crypto/crypto.go:212-264 | decryption undoes encryption, which adds 28 bytes |
| RoundTrip.GetNumChunks | cli/transfer/utils.go:9-11 | the number of chunks is the least that covers the file |
| RoundTrip.BoundsInFile | cli/transfer/utils.go:13-22 | the read bounds of the chunks lie in the file, all but the last are full and the last ends with the file |
| RoundTrip.BoundariesPartition | backend/server/transfer/download.go:28-46 | the ranges of chunks 1 to n partition the object, and eof holds exactly for chunk n |
| RoundTrip.ReadIsChunk | backend/server/transfer/download.go:14-18 | a range read, with both ends included, returns exactly one encrypted chunk |
| RoundTrip.EncryptedAreStored | cli/transfer/upload.go:197-216 | the encrypted chunks of any file that is not empty have the sizes that the server's ranges assume |
| RoundTrip.LocalFile.WriteAt | cli/transfer/download.go:73-81 | writing at an offset fills a gap with zeros and leaves the rest of the file |
| RoundTrip.DownloadData | cli/transfer/download.go:126-176 | the workers' writes in the order in which they finish, then the final chunk, stopping at the first error |
| RoundTrip.FetchIsChunk | cli/transfer/download.go:59-71 | fetching chunk k from the stored object gives chunk k of the file |
| RoundTrip.WriteHolds | cli/transfer/download.go:73-81 | a written chunk is right wherever it lies, and spoils no other |
| RoundTrip.DownloadedIsOriginal | cli/transfer/download.go:126-176 | any order of the writes that covers all chunks gives the original file |
| RoundTrip.FileRoundTrip | cli/transfer/upload.go:144-192 | any file that is not empty, any interleaving of the upload and any order of the download's writes: the downloaded file is the original |
| StorageMeter.Vault.UpdateStorageUsed | backend/db/users.go:255-273 | only limited users are metered, the meter is clamped at zero, and an excess over the limit itself is reported after the update, for positive amounts and with a default storage |
| StorageMeter.Vault.UploadData | backend/server/transfer/vault/handlers.go:309-386 | a chunk is charged without its overhead before it is stored; beyond the limit or the stated number the upload is aborted: its file goes, and the first chunk is refunded, while for later ones the request does not end |
| StorageMeter.Vault.DeleteFile | backend/server/transfer/vault/vault.go:150-191 | the file goes and the meter falls by the recorded length without the overhead of all chunks |
| StorageMeter.ChargesAddUp | backend/server/transfer/vault/vault.go:181-182 | the charges of the single chunks add up to what deletion takes off |
| StorageMeter.FreedIsPlain | backend/db/metadata.go:92-111 | with the length that the upload recorded, deletion frees exactly the plaintext size |
| StorageMeter.PostKeeps | backend/server/transfer/vault/handlers.go:341-357 | accepted or refused, a chunk keeps the meter equal to the plaintext charged for the live files |
| StorageMeter.DeleteKeeps | backend/server/transfer/vault/vault.go:181-182 | deletion keeps it equal, and the clamp at zero does not fire |
| StorageMeter.StorageIsConserved | backend/db/users.go:255-273 | over any run of uploads and deletions of a limited user, the meter is the sum of the plaintext sizes of the live files |
| StorageMeter.AbortKeepsIff | backend/server/transfer/vault/vault.go:193-204 | aborting at any chunk keeps the meter right if and only if nothing is left charged for the file: no other chunk, and the refused one only where it is refunded |
| StorageMeter.AcceptedIff | backend/db/users.go:255-273 | a chunk with a stated number is accepted exactly if the user has no limit, none is configured, it is empty, or the meter with it stays within the limit |
| StorageMeter.LimitIsKeptIff | backend/server/transfer/vault/handlers.go:341-357 | the meter stays within the limit after any chunk if and only if it is not one after the first that is refused for the limit |
| StorageMeter.NeverBeyondLimit | backend/db/users.go:255-273 | over any run of uploads and deletions the meter never passes the limit |
| StorageMeter.ChargedForFile | backend/server/transfer/vault/handlers.go:341-347 | what is charged for the encrypted chunks of a file is the size of the file |
| Calendar.MonthLength | backend/server/upgrades/utils.go:10-18 | day numbers of the Gregorian calendar: months follow each other without gap, leap years included |
| Calendar.DayNumberOrders | backend/server/upgrades/utils.go:10-18 | day numbers order valid dates and tell them apart |
| Calendar.NormalIsUnique | backend/server/upgrades/utils.go:10-18 | normalisation gives the one valid date with the right day number |
| Calendar.AddDaysMoves | backend/server/upgrades/utils.go:14 | adding days moves by exactly that many days |
| Calendar.AddDateClamps | backend/server/upgrades/utils.go:10-18 | for every date, years and months the result lies in the intended month, on the same day or on the last day of a shorter month |
| Calendar.LeapDay | backend/server/upgrades/utils.go:10-18 | 29 February plus years stays in February |
| Calendar.ExpirationIsAhead | backend/server/upgrades/upgrades.go:22-34 | an upgrade expires after its purchase in the month that many periods ahead, and a year is twelve months |
| Refresh.ExactlyOneDay | backend/db/users.go:970-978 | for every expiration day and every month exactly one day is a refresh day, and it lies in the month |
| Refresh.UsersTable.SetUserVaultUpgrade | backend/db/users.go:748-777 | a purchase sets expiration, storage, bandwidth, tag and month of the row with that payment id and of no other |
| Refresh.UsersTable.Collect | backend/db/users.go:832-871 | the loop sorts exactly the lapsed rows into one list and exactly the due ones into groups by tag |
| Refresh.UsersTable.CheckActiveUpgrades | backend/db/users.go:832-908 | each row is reverted, refreshed or left alone by its own columns, whatever the order of rows and tags |
| Refresh.AtMostOncePerMonth | backend/db/users.go:832-908 | over any run in order of time, an upgrade is refreshed at most once per month and not in the month of its purchase |
| Refresh.LapsedStays | backend/db/users.go:832-908 | a reverted user is not refreshed again before another purchase |
| Refresh.ExactlyOnceInMonth | backend/db/users.go:832-908 | with a check on every day of a month, an active upgrade is refreshed exactly on its refresh day |
| Refresh.CheckIsExact | backend/db/users.go:832-908 | what a check does to a row, by date: nothing without an upgrade or when settled in this month, the default storage after the expiration, the storage of the upgrade on the refresh day |
| Refresh.RefreshLasts | backend/db/users.go:894-903 | from a refresh on, while the upgrade lasts, the row has the storage of its upgrade and the same tag, expiration and bandwidth |
| Refresh.PurchaseLasts | backend/db/users.go:748-777 | from a purchase on, while the upgrade lasts, the row has the tag, expiration and bandwidth bought, and the storage bought or that of the upgrade |
| Refresh.ExpiredLoses | backend/db/users.go:832-908 | an expired upgrade that is checked in a later month leaves the default storage until another purchase |
| Refresh.OthersStay | backend/db/users.go:832-908 | checks never change the row of a user without an upgrade |
| Refresh.GrantedFromDayOn | backend/db/users.go:832-908 | with daily checks an active upgrade leaves the row alone before its refresh day and gives it its storage from that day on |
| Cron.Database.AcquireCronTaskLock | backend/db/cron.go:21-31 | the lock is granted exactly if nobody holds it |
| Cron.Database.UpdateTaskLock | backend/cron/cron.go:150-171 | the row is written if the database accepts it, and the lock is released in any case |
| Cron.Database.RunCronTask | backend/cron/cron.go:173-204 | an uninterrupted call does the six actions of the protocol in their order |
| Cron.MutualExclusion | backend/cron/cron.go:173-204 | over any number of servers and any interleaving no two are in the task at once |
| Cron.ChecksAreSpaced | backend/cron/cron.go:122-134 | a running task has checked at least the interval less one second after the check of the run whose lock time it read |
| Cron.RunsAreSpaced | backend/cron/cron.go:173-204 | the same for all runs that are over |
| Cron.SecondRunInInterval | backend/cron/cron.go:173-204 | a second server that has checked before the row is updated runs the task in the same interval: a run from the start for every interval |
| Cron.UnovertakenIsSpaced | backend/cron/cron.go:122-134 | a worker in the task that has read the row as it still is has checked the interval, less one second, after the run before it |
| Cron.AllRunsAreSpaced | backend/cron/cron.go:173-204 | if no run was overtaken between its read and its update, any two runs are spaced, so that there is at most one per interval |
| Cron.RunsInsideIff | backend/cron/cron.go:122-134 | from any reachable state with the lock free, a worker that has read the row can run inside the interval of the last run if and only if the time it has read lies before the end of that interval, which takes another run's update since the read |
| Cron.SpacedFromLastOnly | backend/cron/cron.go:122-134 | a run that is not overtaken may still lie inside the interval of a run before the last, if that last one was overtaken |
| Cron.CallRunsIff | backend/cron/cron.go:173-204 | an uninterrupted call runs the task exactly if the time in the row has come, and then sets it to the stamp and the interval, less one second |
| Cron.NextRunIff | backend/cron/cron.go:122-134 | of two calls on any servers the second runs the task exactly if it checks the interval, less one second, after the stamp of the first or later |
| Cache.FileCache.CheckDirSize | backend/cache/cache.go:27-50 | the size of all files in the directory |
| Cache.FileCache.RemoveOldestUnlockedFile | backend/cache/cache.go:164-210 | one unlocked file goes, and no unlocked file has been used earlier; nothing goes if all are locked |
| Cache.FileCache.PrepCache | backend/cache/cache.go:27-50 | the loop ends with room for the file; evicted files were unlocked, none was used later than a remaining unlocked one, and without the last of them there was no room; nothing goes if there is room |
| Cache.LastUsedStays | backend/cache/cache.go:164-210 | of two files the one that was read or, if never read, written later is not evicted before the other one, unless that one is locked |
| Cache.NeverFits | backend/cache/cache.go:202-209 | if the locked files leave no room, no evictions end the loop |
| Cache.OneLockedFileBlocks | backend/cache/cache.go:164-210 | one locked file and any file that does not fit beside it make the loop run forever |
| Cache.FileCache.Write | backend/cache/cache.go:71-96 | data is appended, and only to files announced to PrepCache |
| Cache.FileCache.Read | backend/cache/cache.go:100-147 | the bytes read, the access time, and the lock taken at the start and returned at the end; a read that fails keeps the lock it took |
| Cache.FileCache.RemoveLock | backend/cache/cache.go:151-160 | exactly one occurrence leaves the multiset of locks |
| Cache.LockIsReturnedIff | backend/cache/cache.go:117-144 | reading all chunks in order returns the lock if and only if there are several chunks and the encrypted last one is at most one chunk size long |
| Cache.HasFileIffFull | backend/cache/cache.go:54-68 | a file being filled in order counts as present exactly after its last chunk |
| Cache.CachedReadIsRangeRead | backend/server/transfer/download.go:20-24 | a read from the complete cached file equals the range read from the storage |
| Cache.FileCache.ServeChunk | backend/server/transfer/send/handlers.go:292-307 | a chunk comes from the cache if the file is complete there and otherwise from the storage; then the oldest unlocked files go as far as needed, and the chunk is appended to what is left of the file |
| Cache.FileCache.FirstDownload | backend/server/transfer/vault/handlers.go:473-486 | a first download in order, whatever files it evicts, is served from the storage; it leaves the chunks since its own part was last evicted, counts as complete only if these are all, and they are if there is room; no lock is taken |
| CacheFill.SteadyRunsAgree | backend/cache/cache.go:54-96 | over any run of fills in order, reads and losses a file counts as complete exactly when all its chunks are there, and every request gets its own chunk |
| CacheFill.OwnBytesIff | backend/cache/cache.go:54-96 | after any requests in any order, every request gets its own bytes, whatever the bytes are, if and only if the file does not count as complete or its chunks have arrived in order |
| CacheFill.TwoOneOne | backend/cache/cache.go:54-96 | two full chunks requested as 2, 1, 1: the third request gets chunk 2 |
| CacheFill.ServedIsAnswer | backend/server/transfer/send/handlers.go:292-307 | in a directory with any other files, requests and evictions, a file is served by its own history alone |
| CacheFill.CachedReadsAgree | backend/server/transfer/vault/handlers.go:473-486 | over any run of interleaved requests for any files with their evictions, if the fills of a file are in order and start again after a loss, every later request for it gets its own chunk, from cache or storage |
| Strings.SplitAtLast | shared/utils.go:143-178 | splitting and joining all but the last segment cuts at the last separator |
| Strings.AtoiOfDecimal | shared/utils.go:158-162 | reading a formatted number gives that number |
| SaveName.NextNumber | shared/utils.go:143-178 | a numbered name is followed by the same name with the next number |
| SaveName.AttemptsNumber | shared/utils.go:143-178 | the k-th attempt from a name carries the number that the name carried plus k |
| SaveName.NeverRepeats | shared/utils.go:143-178 | from any name the attempts never repeat a name |
| SaveName.TwoRegimes | shared/utils.go:143-178 | a name that ends with a dot changes the place of the number after the first attempt |
| SaveName.FreeName | cli/commands/vault/items/items.go:273-278 | the loop over finitely many existing files ends on the first attempt that is free |
| Router.SeparatedNeverBoth | backend/server/router.go:81-103 | patterns that differ in length or at a literal position have no path in common |
| Router.SeparatedIffDisjoint | backend/server/router.go:81-103 | patterns that begin with a literal are disjoint only if they differ so |
| Router.Router.AddRoute | backend/server/router.go:27-36 | the handler is registered, and the first segment is reserved if it is a literal |
| Router.Router.AddRoutes | backend/server/router.go:38-59 | the routes of all definitions, methods and optional segments, later definitions replacing earlier ones, whatever the order of methods, and the reserved names of their literal first segments |
| Router.LastDefinitionWins | backend/server/router.go:38-59 | a route gets the handler of the last definition that leads to it |
| Router.UndefinedHasNone | backend/server/router.go:38-59 | and none if no definition does |
| Router.ReservedIff | backend/server/router.go:27-36 | the reserved names are exactly the first segments, neither empty nor wildcards, of the paths that are registered |
| Router.Router.ServeHTTP | backend/server/router.go:62-76 | a handler is found exactly if a route matches; with separated patterns it is the one handler of the request in any map order |
| Router.OrderDoesNotMatter | backend/server/router.go:62-76 | with separated patterns at most one route is for a request |
| RouteTable.PatternsAreDisjoint | backend/server/server.go:59-164 | any two patterns that the definitions of the server expand to are separated |
| RouteTable.KnownAreSeparated | backend/server/router.go:38-59 | all routes with such patterns are separated |
| RouteTable.ServerRouter | backend/server/server.go:59-164 | handing the definitions of the server to AddRoutes yields a router whose routes are exactly those of the table and are separated |
| RouteTable.Serve | backend/server/router.go:62-76 | any request to that router is answered by the one route of the table that is for it, or by none if none is |
| Router.Format | shared/endpoints/endpoints.go:188-201 | the loop of replacements, then the removal of wildcards that are left, and one slash between server and path |
| Router.FilledAt | shared/endpoints/endpoints.go:188-201 | each wildcard segment is the argument with its number or empty, each literal segment itself |
| Router.FormatFills | shared/endpoints/endpoints.go:188-201 | the address is the server followed by exactly these segments, for arguments without slash and wildcard |
| Router.FormatMatches | backend/server/router.go:81-103 | the formatted path matches the pattern of its endpoint, but for a wildcard in the first segment that is a reserved name or makes the path "/" |
| Base64.SextetsRoundTrip | cli/utils/utils.go:119-126 | regrouping bytes by six bits is undone for all byte strings |
| Base64.SextetsAreDigits | cli/utils/utils.go:119-126 | the sextets of three bytes are the digits to the base 64 of the number that the bytes are to the base 256 |
| Base64.LastSextets | cli/utils/utils.go:119-126 | one or two bytes at the end are filled up with zero bits, and the number of sextets |
| Base64.LettersAreStandard | web/ts/utils.ts:32-39 | the alphabets are those of sections 4 and 5 of RFC 4648 |
| Base64.TestVectors | cli/utils/utils.go:119-126 | the first test vectors of section 10 of RFC 4648 |
| Base64.ToURLSafeBase64 | web/ts/utils.ts:32-39 | encoding by way of the padded standard alphabet, with replaced letters and the padding cut off, gives what the Go client's unpadded encoding gives |
| Base64.FromURLSafeBase64 | web/ts/utils.ts:46-59 | the loop that adds padding makes the standard decoder applicable; every encoded byte string is decoded to itself |
| Base64.SameEncoding | web/ts/utils.ts:32-39 | both clients encode every byte string equally |
| Base64.EncodingRoundTrip | cli/utils/utils.go:119-126 | what either client encodes, both decode to the same bytes |
| Links.UnescapeUndoesEscape | shared/utils.go:90-100 | unescaping undoes escaping for every text |
| Links.LinkShape | cli/commands/send/view.go:299-303 | the link that the user sees is the server, "/send/", the item, "#" and the secret |
| Links.RenderedLink | cli/commands/send/view.go:299-303 | the escaped text that is handed to the terminal shows exactly that link once the escapes are taken away |
| Links.LinkRoundTrip | cli/commands/download/download.go:37-57 | parsing a printed link recovers item and secret, and the server up to a slash at the end if and only if its address does not contain "/send" |
| Links.ResourceRoundTrip | cli/commands/download/download.go:37-57 | the resource alone parses to its item and secret with an empty server |
| Sent.SentFileStore.DecrementDownloads | backend/db/expiry.go:22-51 | a positive counter falls by one; the result is the counter, or -1 without a limit |
| Sent.SentFileStore.DownloadChunk | backend/server/transfer/send/handlers.go:267-327 | a chunk is sent from cache or storage, and appended to the cached bytes unless these count as complete; the end of the file counts, and the file goes when nothing is left; after the expiration nothing is sent and nothing changes |
| Sent.LateIsRefused | backend/server/transfer/send/handlers.go:274-285 | from any state a request after the expiration, for any chunk, gets nothing and leaves file, counter and cached bytes as they were; a request that names no chunk is for the first |
| Sent.CountsFinals | backend/server/transfer/send/handlers.go:309-318 | over runs with requests before and after the expiration, with d downloads the file is gone exactly after d requests before it for the last chunk, and until then the counter shows what is left |
| Sent.ServedExactly | backend/server/transfer/send/handlers.go:267-327 | every request before the expiration and up to the d-th such one for the last chunk is answered, with what the bytes cached by the requests before it and the storage give, and no other |
| Sent.ServedExactlyTimes | backend/db/expiry.go:22-51 | the last chunk is served exactly d times, or as often as it is asked for before the expiration |
| Sent.UnlimitedStays | backend/db/expiry.go:22-51 | a file without a limit never goes by counting, and exactly the requests before the expiration are answered, in the same way |
| Sent.OwnChunkIff | backend/server/transfer/send/handlers.go:292-307 | an answered request gets its own chunk, whatever the bytes of the chunks are, if and only if the cached file does not count as complete or its chunks have arrived in order |
| Sent.SteadyRequests | backend/server/transfer/send/handlers.go:292-307 | without the cache, or with requests that fill it in order, every answered request gets its own chunk |
| Sent.OutOfOrderServesWrong | backend/server/transfer/send/handlers.go:292-307 | two full chunks requested as 2, 1, 1: the third request gets chunk 2 |

## Left out

- Deleting an account or a root folder: the rows of incoming shares are looked up by their own id and stay behind.
- VaultRun.StepKeeps: clients name folders by their reference id, remove a share by its own entry and delete trees of one kind, as the command line client does; what happens otherwise is stated by the lemmas of VaultInvariant whose names end with Iff, by FolderDelete.TakesAllIffOneKind and in VaultFailures. Names and keys of files are left out.
- VaultDb.Db.DeleteVaultFolder: says which files go only for owners and folders below their root; the freed amount is stated if copies have the sizes of their files, which holds after all runs of TidyRuns.
- VaultDb.Db.DeleteSubfolders: says which files go only for owners and folders below their root.
- VaultDb.Db.DeleteItems: says what goes only for owners and folders below their root.
- VaultDb.Db.DeleteVaultFile: leaves the meter to StorageMeter, and failing storage, download rows and upload rows aside.
- VaultDb.Db.RetrieveVaultMetadata: which of several rows of a file the database returns first is arbitrary.
- Paired database statements are taken to succeed together.
- The wrapped form of an RSA ciphertext is symbolic: equal keys for one user give equal terms.
- Uploads.ExactlyOneFinishes: each chunk number from 1 to n is posted once; other chunk numbers and repeated posts are not modelled.
- RoundTrip.GetNumChunks: the exact ceiling instead of the floating-point one, which agrees with it for sizes that a double represents.
- Real ciphers, key derivation, password hints and two-factor codes; a cipher is any pair of functions that undo each other with the fixed overhead.
- StorageMeter.Vault.UploadData: chunk numbers from 1; the code does not refuse others.
- RoundTrip.DownloadData: progress reports and cancellation of other workers after an error; the first error in the order of completion ends the download.
- StorageMeter.StorageIsConserved: password entries, files that recipients put into another owner's folder, uploads that the storage refuses, and aborted uploads with other chunks charged, which AbortKeepsIff is about.
- The use of bandwidth, and the limit check before an upload begins.
- Calendar.AddDateClamps: dates only; the time of day is kept by the code and time zones are left out.
- Refresh.UsersTable.CheckActiveUpgrades: one point in time for a whole call, which reads the clock several times.
- Cron.MutualExclusion: an ideal advisory lock, no crashes, and tasks that use the lock; re-authentication with the storage runs on every server on purpose.
- Cache.FileCache.PrepCache: recorded times lie before the present one, and one request at a time uses the cache.
- Cache.FileCache.FirstDownload: the locked files leave room for the file, because PrepCache would not end otherwise, and nobody else uses the cache in between; CacheFill.CachedReadsAgree is about interleaved requests.
- CacheFill.CachedReadsAgree: requests are handled one after another; two that overlap within PrepCache or Write are not modelled.
- SaveName.NeverRepeats: ideal integers; the code overflows beyond 63 bits.
- The router's log lines and default headers, and requests whose path has no slash.
- Base64.EncodingRoundTrip: decoding of texts that no client has encoded; Go skips line breaks and returns what it could decode before an error.
- Links.LinkRoundTrip: item identifiers contain no slash, "#" or "*", which the generated ones do not.
- Sent.ServedExactly: before the expiration no chunk beyond the last is requested; for such the storage may ignore the range, and the cache panics on a negative length. A cached copy is lost at any time, and evictions because of other files are such losses.
- Links.RenderedLink: the server's address contains no backslash; how the terminal draws other characters is left out.
- Emails, payments, sessions, captcha, templates, terminal and web views, and configuration parsing.
