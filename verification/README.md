# ClearVault, verified model

ClearVault keeps files encrypted on a remote object store and their metadata in a local directory tree. This project
models its core in Dafny and proves what the pieces promise, one by one and together:

* **Stream codec** (`Engine`, `EngineLaws`, `Nonce`, `RangeWindow`): plaintext is cut into 64 KiB chunks, each sealed
  under a nonce derived from its index. Streams hand out their bytes in pieces of arbitrary size. Every fast form (from
  chunk k, by byte range, through the proxy's window) is proved equal to decrypting everything and slicing.
* **Metadata store** (`PathMaps`, `Trees`, `Disks`, `DiskCopies`, `LocalStorage`): files live at `p.json`, directories at
  `p`. `Disks.Abs` decodes the disk; every operation commutes with it, both ways of renaming included.
* **Proxy** (`Vaults`, `Views`, `PendingCache`, `Proxy`, `ProxyFile`): metadata, remote objects and wrapped keys stay
  consistent over every run; a seekable file behaves like its content held in memory.
* **FUSE writing** (`Fuse`, `FuseProxy`): handles, deferred renames and `Release` as interleaved lock-sized steps, over
  the folders, files and placeholders that the proxy shows.
* **Share packages** (`Share`, `Codecs`): export under one master key, import under another.
* **WebDAV negotiation** (`Auth`): the redo loop, and the objects its requests share.

Encryption is any pair of functions obeying the three laws in `Aead.Lawful`, which is how sections 7.1 and 7.2 of
NIST SP 800-38D look from outside; `Codecs.Lawful` says the same of JSON, RSA, PEM and the password hash. Each has a
small instance, so the laws are consistent and nothing is assumed. Random keys, nonces and names, the clock, failures of
the remote and of `os.Rename`, and the sizes of short reads are parameters or nondeterministic choices.

Methods that change objects are proved against specification functions (`Step`, `Apply`, `RenameTree`, `RangeFrom`,
`Negotiation`, ...); the lemmas then say what those functions are good for.

## What the proofs show about the code

* `DecryptRange` works in int64. When the offset of the first sealed chunk is no int64, reading fails; when length plus
  `start % 65536` is none, the slice bound wraps around and the call panics if there is a byte at start, as it does for
  everything from byte 1 on with the largest length (`OneToTheEnd`). Asking for byte 2^63 - 1 is such a read error
  (`LastByteFails`). `RangeIsSlice` gives the outcome for all inputs: everywhere else the slice is right, wrapped sums
  included.
* `DownloadRange` survives a wrapped sum of offset and length, because the chunk count caps the result.
* `LocalStorage.RemoveAll` of a path that does not exist clears the whole tree, unless the path is spelled like another
  file's metadata (that file goes) or like the marker. `Proxy.RemoveAll` never gets there, because it asks `Get` first;
  its contract shows that an absent path changes nothing.
* `LocalStorage.Rename` looks for its source under two spellings, so a path ending in `.json` that does not exist finds
  the metadata of the file without that ending, and `/.clearvault` finds the marker; `RenameFindsSource` says exactly when
  a source is found. The other file then disappears from its path exactly when nothing but directories stands on the way
  to the target and the target is no directory, unless the copying fallback runs and the target lies at or below the
  missing path's own metadata spelling: then the copy is deleted again. In every other case nothing changes
  (`AliasedRenameLosesFile`). Renaming `/x.json` to `/y` in a vault with the one file `/x` empties it (`LoneFileLost`).
* `Get` reports an error instead of "not found" exactly when the way to the path leads through a file on disk: the marker,
  or a directory spelled like some file's metadata (`/x.json/b` next to a file `/x`). `/x/b` is just not found.
* Directories ending in `.json` collide with the encoding, and `ReadDir` skips every entry called `.clearvault`, at any
  level; `Placeable` and `ValidTree` exclude directories of either name everywhere.
* A rename onto a path that another handle is still writing is acknowledged, both Releases return 0, and what was written
  to the second file is gone (`OverwrittenInFlight`; `TargetTaken` is the step that does it). `ReleaseDelivers` shows that
  a file is safe from this, handle by handle, while nothing else is put or taken away at, above or below its path, or at
  or above its content, whatever the other handles do to each other.
* `Release` of a handle that was never written and is no placeholder candidate uploads to the handle's own path, even
  when a rename was deferred: `ReleaseDelivers` has this as the exact exception, `UnwrittenStays` is such a run.
* A rename of a folder takes along a file below it that is uploaded already and misses one that is still being written,
  which is then stored at the old path (`FolderRenameTakesUploaded`).
* In the WebDAV client the negotiator of the running request is also the shared default. When the factory picks several
  authenticators and none is accepted while the body can be sent again, `Close` clears the callback of the default as
  well. From then on no request succeeds: one whose credentials the server accepts calls the cleared callback.
  `SticksExactly` and `StuckForever` say when this happens and that it lasts; `TwoRefused` is a run.
* A `put` cannot be redone: it clears `GetBody` after `Authorize` has set it, so `req` ends at the first redo with an
  error of its own. The other requests end there only if `GetBody` fails.
* Receiving a share package can break the receiver: when one of its own files names the object of a file it receives
  under another path, removing either destroys the other (`ClaimedIsLost`). `ReceivingKeepsInv` gives the exact condition;
  a receiver that has the shared file already, under another name, is one (`KnownElsewhere`).

## Model

| member | source | states |
|---|---|---|
| Nonces.DeriveNonce | internal/crypto/engine.go:56-67 | the in-place XOR loop leaves the base nonce with the big-endian index XORed into its last eight bytes, for base nonces of any length |
| Nonces.NoncesDistinct | internal/crypto/engine.go:56-67 | two indices below 2^64 have the same nonce exactly when they are equal |
| Nonces.XorCancels | internal/crypto/engine.go:61-65 | XOR with a fixed byte is injective |
| Nonces.BigEndianInjective | internal/crypto/engine.go:59-60 | the eight index bytes determine the index |
| Nonces.NonceIs | internal/crypto/engine.go:56-67 | byte by byte and bit by bit, exactly one nonce belongs to a chunk: the base, padded or cut to twelve bytes, with the eight big-endian index bytes added modulo two bit by bit into its last eight |
| Nonces.XorBit | internal/crypto/engine.go:61-65 | each bit of a combined byte is the sum modulo two of the two bits |
| Nonces.DigitAt | internal/crypto/engine.go:59-60 | byte j of the big-endian index is the index divided by its power of 256, modulo 256 |
| Streams.Reader.ReadFull | internal/crypto/engine.go:86-104 | however the pieces fall, the buffer ends up filled or the stream is exhausted, and the three outcomes are told apart |
| Engines.Engine.EncryptStream | internal/crypto/engine.go:69-118 | what is written depends only on the byte sequence, not on how the reader splits it, and is the ciphertext whose format ChunkFormat gives; the reader has counted exactly those bytes |
| Engines.Engine.DecryptStreamFrom | internal/crypto/engine.go:156-190 | writes the chunks up to the first that does not open, counting from any start index, and reports that chunk |
| Engines.Engine.DecryptStream | internal/crypto/engine.go:120-154 | the same from index 0, with the error it ends in |
| Engines.Engine.DecryptRange | internal/crypto/engine.go:193-253 | for any int64 start and length that are not negative, the loop over chunk indices writes what RangeFrom says, with every wrap-around, every error exit and the panic of the slice expression |
| Engines.Engine.RangeIsSlice | internal/crypto/engine.go:193-253 | on an accepted ciphertext, for all start and length: a read error exactly when the first offset leaves int64, a panic exactly when the slice bound wraps around and there is a byte at start, and otherwise the whole plaintext sliced and clipped |
| Engines.Engine.OneToTheEnd | internal/crypto/engine.go:240-247 | start 1 with the largest length panics on every longer file |
| Engines.Engine.LastByteFails | internal/crypto/engine.go:206-217 | asking for the last byte that int64 can name is a read error on every ciphertext, the empty one included |
| Engines.Engine.RangeFails | internal/crypto/engine.go:216-247 | on any ciphertext the range is refused exactly when one of the chunks it reaches does not open, unless the first one opens and its slice bound has wrapped around |
| Engines.Engine.RangeOverflows | internal/crypto/engine.go:206-217 | on any ciphertext reading fails exactly when the first offset leaves int64 and endChunk has not wrapped back to 0 |
| Engines.Engine.ChunkOpens | internal/crypto/engine.go:230-233 | chunk k of an accepted ciphertext opens to chunk k of the plaintext |
| EngineLaws.EncryptedLength | internal/crypto/engine.go:20-26 | CalculateEncryptedSize is the length of the ciphertext, for every length |
| EngineLaws.ChunkFormat | internal/crypto/engine.go:91-109 | for every plaintext and every chunk k, bytes 65552k to 65552(k+1) of the ciphertext are the cipher applied to bytes 65536k to 65536(k+1) of the plaintext under the key and the nonce of chunk k |
| EngineLaws.ChunkNoncesDiffer | internal/crypto/engine.go:56-67 | below 2^64 two chunks of a stream have the same nonce exactly when they are the same chunk |
| EngineLaws.RefusedAt | internal/crypto/engine.go:120-154 | a refused ciphertext is refused at a chunk that the cipher does not open under the nonce of that chunk, and what was written is exactly what the chunks before it encrypt |
| EngineLaws.RoundTrip | internal/crypto/engine.go:69-154 | decryption inverts encryption from any chunk index on |
| EngineLaws.AcceptsExactly | internal/crypto/engine.go:120-154 | a ciphertext is accepted with output p if and only if it is the encryption of p, or p fills its chunks and one sealed empty chunk follows |
| EngineLaws.AcceptedOnly | internal/crypto/engine.go:120-154 | nothing else is ever accepted: truncations, reorderings and extensions inside a chunk all fail |
| EngineLaws.TrailingAccepted | internal/crypto/engine.go:120-154 | the sealed empty chunk after full chunks really is accepted |
| EngineLaws.EncryptSplit | internal/crypto/engine.go:91-109 | cutting the plaintext at a chunk boundary cuts the ciphertext at the matching boundary |
| EngineLaws.CipherWindow | internal/proxy/proxy.go:546-600 | the sealed bytes from chunk a to chunk b are the encryption of exactly those chunks and lie inside the object |
| EngineLaws.WindowDecrypts | internal/crypto/engine.go:156-190 | a window of any accepted ciphertext decrypts from its first chunk on to that stretch of the plaintext |
| RangeWindows.RangeWindow | internal/proxy/proxy.go:546-600 | for every int64 length the window starts at the chunk of offset, ends with the chunk of the last byte, lies inside the object, and no int64 or uint64 step other than the sum of offset and length overflows |
| RangeWindows.EndChunk | internal/proxy/proxy.go:565-579 | the capped last chunk is the chunk of the last byte asked for, even when the sum has wrapped around |
| RangeWindows.WindowLength | internal/proxy/proxy.go:566-592 | both branches give the same length: full chunks plus the clipped last one, each with its tag |
| PathMaps.MoveIsCopyThenRemove | internal/metadata/local.go:256-300 | for paths apart from each other, moving a subtree is copying it and deleting the original |
| PathMaps.MkdirLook | internal/metadata/local.go:133-141 | os.MkdirAll adds exactly the missing paths at and above its path, as directories |
| Disks.LocalRoundTrip | internal/metadata/local.go:45-63 | TrimSuffix undoes the `.json` encoding of a path, and the encoding undoes TrimSuffix on names that carry it |
| Disks.LocalInjective | internal/metadata/local.go:45-54 | two paths share a metadata file only if they are equal |
| Disks.AbsValid | internal/metadata/local.go:133-152 | a well-formed disk decodes to a tree: parents are directories, names are representable |
| Disks.MkdirOnDisk | internal/metadata/local.go:133-141 | os.MkdirAll on disk is MkdirAll on the decoded tree, and keeps the disk well-formed |
| Disks.WriteOnDisk | internal/metadata/local.go:143-151 | writing a metadata file sets exactly one path of the decoded tree |
| Disks.RemoveDirOnDisk | internal/metadata/local.go:154-196 | deleting a directory on disk deletes its subtree and nothing else from the decoded tree |
| Disks.RemoveFileOnDisk | internal/metadata/local.go:154-196 | the same for a metadata file |
| DiskCopies.CopyOnDisk | internal/metadata/local.go:344-373 | copying a directory to a free place copies the decoded subtree with every path re-prefixed |
| DiskCopies.MoveDirOnDisk | internal/metadata/local.go:272-300 | os.Rename in place and copyDir followed by RemoveAll end on the same disk, and both move the decoded subtree |
| DiskCopies.MoveFileOnDisk | internal/metadata/local.go:255-285 | both ways of renaming a file leave the same tree, with the name inside the metadata brought up to date |
| LocalStorages.LocalStorage.constructor | internal/metadata/local.go:32-43 | a new store with its marker file decodes to the empty tree |
| LocalStorages.LocalStorage.Reopen | internal/metadata/local.go:32-43 | opening a directory with content adds at most the marker and shows the tree that is there |
| LocalStorages.LocalStorage.Get | internal/metadata/local.go:65-109 | a file gives its metadata, a directory a record marked as directory, anything else nothing; it fails exactly when the way to the path leads through a file on disk, which is the marker or another file's metadata |
| LocalStorages.LocalStorage.Save | internal/metadata/local.go:133-152 | path by path: the file or directory is there, the missing directories above it too, and nothing else has changed in the decoded tree |
| LocalStorages.LocalStorage.RemoveAll | internal/metadata/local.go:154-196 | path by path, an existing path goes with all below it and nothing else; of absent paths, one that spells another file's metadata deletes that file, the marker deletes only itself, and every other clears the tree |
| LocalStorages.LocalStorage.ReadDir | internal/metadata/local.go:198-241 | lists the children in the decoded tree, each exactly once, with the metadata of each, and fails exactly on what is no directory |
| LocalStorages.LocalStorage.CopyDir | internal/metadata/local.go:325-373 | the recursive copy ends, because the source shrinks and lies apart from the target, and the result is the old disk with the subtree also at the target; a single file is copied over another, and fails exactly onto a directory |
| LocalStorages.LocalStorage.UpdateMetadataName | internal/metadata/local.go:303-323 | changes only the name of the metadata at that file, and fails without a change otherwise |
| LocalStorages.LocalStorage.Rename | internal/metadata/local.go:243-300 | whether os.Rename works or the fallback runs, the decoded tree is renamed as a whole, including every path below; an absent source changes nothing, unless its directory spelling is a file on disk, which is then moved as AliasedRenameLosesFile describes |
| LocalStorages.RenameFindsSource | internal/metadata/local.go:243-270 | for every path: a source is found if and only if the path exists, or it ends in `.json` and the file without that ending exists, or it is the marker and that is there |
| LocalStorages.AliasedRenameLosesFile | internal/metadata/local.go:256-300 | in that second case the other file is gone from its path if and only if the way to the target is free, the target is no directory, and the fallback does not delete its own copy again; otherwise the disk is as it was |
| LocalStorages.DisplacedLook | internal/metadata/local.go:256-300 | path by path on disk, where such a rename loses the file: its metadata stands at the target as it is spelled, directories were made on the way, and nothing else has changed |
| LocalStorages.LoneFileLost | internal/metadata/local.go:256-280 | one such rename, after which a vault of one file is empty |
| LocalStorages.RemoveAllOnDisk | internal/metadata/local.go:154-196 | what the removal does to the disk is, on the decoded tree, one of the four cases above, and the disk stays well-formed |
| Trees.RenameLook | internal/metadata/local.go:243-323 | where every node of a renamed tree comes from, and that nothing is left below the source |
| Trees.SaveLook | internal/metadata/local.go:133-152 | path by path, what saving a file or a directory changes |
| Trees.RenameKeepsValid | internal/metadata/local.go:243-323 | renaming keeps the tree well-formed |
| PendingCaches.PendingFileCache.Cleanup | internal/proxy/proxy.go:40-54 | the sweep keeps exactly the unexpired entries |
| PendingCaches.PendingFileCache.Exists | internal/proxy/proxy.go:66-81 | an entry is found up to and including the instant it expires |
| PendingCaches.PendingFileCache.Move | internal/proxy/proxy.go:90-105 | moves a live entry with its expiry and drops an expired one |
| PendingCaches.RefinesUnexpired | internal/proxy/proxy.go:40-105 | the cache answers and evolves like the map of its unexpired entries |
| PendingCaches.CleanupUnobservable | internal/proxy/proxy.go:40-54 | inserting or deleting sweeps anywhere in a trace with a monotone clock changes no answer |
| PendingCaches.SeenUntil | internal/proxy/proxy.go:56-81 | a placeholder is found up to the last instant of its time to live and never after, over every trace that leaves its path alone, sweeps included |
| PendingCaches.MovedUntil | internal/proxy/proxy.go:90-105 | a moved placeholder is found at its new path until it was to expire at the old one, where it is gone |
| Vaults.UnwrapWrap | internal/proxy/proxy.go:151-174 | decryptFEK inverts encryptFEK under every master key of the right size |
| Vaults.WrappedKey | internal/proxy/proxy.go:151-163 | the wrapped key is one application of the cipher to the key, under a master key of 32 bytes and twelve zero bytes for a nonce; other master keys are refused |
| Vaults.UnwrappedKey | internal/proxy/proxy.go:165-174 | unwrapping opens it the same way, and fails exactly when the cipher refuses or the master key has another length |
| Vaults.UploadedContent | internal/proxy/proxy.go:220-301 | what was uploaded is what the recorded key, nonce and name decrypt to |
| Vaults.ObjectFirst | internal/proxy/proxy.go:284-300 | between storing the object and saving the metadata the vault is consistent |
| Vaults.RunsKeepInv | internal/proxy/proxy.go:220-486 | over every run of uploads, directories, renames and removals that the metadata store supports, each file is named after its path, owns an object no other file names, and that object decrypts to exactly its size |
| Vaults.KeepsItsObject | internal/proxy/proxy.go:404-454 | a file outside a removed subtree keeps its object |
| Vaults.RemovalDestroys | internal/proxy/proxy.go:404-454 | if two files named one object, removing one of them, or a directory above it, would leave the other without content |
| Vaults.RenameKeepsInv | internal/proxy/proxy.go:456-470 | a rename of a file or a whole subtree keeps that invariant |
| Vaults.RemoveKeepsInv | internal/proxy/proxy.go:404-438 | a removal keeps it |
| Vaults.RemovedAt | internal/proxy/proxy.go:404-454 | path by path and object by object, what a removal leaves: everything not at or below the path, and every object that no file there names |
| Views.UploadView | internal/proxy/proxy.go:220-301 | an upload sets the plaintext at its path and leaves every other plaintext alone |
| Views.RenameView | internal/proxy/proxy.go:456-470 | after a rename the plaintext of every file at or below the source is found at the same place below the target |
| Views.RemoveView | internal/proxy/proxy.go:404-438 | a removal drops exactly the plaintexts at and below its path |
| Views.UploadNodes | internal/proxy/proxy.go:220-301 | with folders included, an upload adds its file and the missing folders above it |
| Views.RenameNodes | internal/proxy/proxy.go:456-470 | with folders included, a rename moves the whole subtree and adds the missing folders above its target |
| Proxies.Proxy.EncryptFEK | internal/proxy/proxy.go:151-163 | wraps the key as one sealed stream under the master key, or reports a bad master key |
| Proxies.Proxy.DecryptFEK | internal/proxy/proxy.go:165-174 | unwraps it, or reports what the stream reports |
| Proxies.Proxy.SavePlaceholder | internal/proxy/proxy.go:209-218 | the placeholder lives for 30 seconds from now |
| Proxies.Proxy.UploadFile | internal/proxy/proxy.go:220-301 | succeeds exactly when key, stream and remote do; then path by path the file is there with its size, wrapped key and nonce, with missing directories above it, its object is the encryption of what was read, and nothing else has changed; otherwise nothing has; a live placeholder goes in any case; when the caller's size is right, the announced length is the stored length |
| Proxies.Proxy.StoreObject | internal/proxy/proxy.go:245-287 | the object is the encryption of everything read, and the counter holds its plaintext length |
| Proxies.Proxy.Stat | internal/proxy/filesystem.go:117-148 | the root and directories are directories of size 0, a live placeholder is an empty file and hides metadata, a file has its recorded size, and anything else, a path through a file included, is absent |
| Proxies.StatMatchesDownload | internal/proxy/filesystem.go:117-148 | at every instant Stat reports size k on a non-directory exactly when a download yields k bytes |
| Proxies.Proxy.DownloadFile | internal/proxy/proxy.go:493-530 | the stream hands out the plaintext, or what precedes the first bad chunk followed by an error; there is none exactly when there is no file and no live placeholder, or its key or its object is missing |
| Proxies.Proxy.DownloadRange | internal/proxy/proxy.go:532-636 | the stream is the plaintext from the chunk boundary at or before offset to the end of the last chunk touched; there is none exactly when there is no such file or its key or object is missing |
| Proxies.RangeCovers | internal/proxy/proxy.go:546-600 | that stretch begins less than one chunk before offset and ends less than one chunk after the last byte asked for, at chunk boundaries or the end of the file, and all bytes asked for lie inside |
| Proxies.Proxy.ServeRange | internal/proxy/proxy.go:602-636 | one exact slice of the object, decrypted from the window's first index, is that range, and of a damaged object it is what the window's chunks open to |
| Proxies.Proxy.Mkdir | internal/proxy/proxy.go:472-486 | path by path: the directory and its missing parents are there, nothing else has changed, and no object is touched |
| Proxies.Proxy.RenameFile | internal/proxy/proxy.go:456-470 | renames metadata if there is any, else moves a live placeholder, else fails |
| Proxies.Proxy.RemoveAll | internal/proxy/proxy.go:404-438 | deletes each object of the subtree with one Delete call, nothing else, then the subtree; an absent path changes nothing but a live placeholder; it succeeds exactly when there was metadata, or an unblocked placeholder |
| Proxies.Proxy.RecursiveRemoteDelete | internal/proxy/proxy.go:440-454 | the recursion visits every file below the directory exactly once and ends |
| ProxyFiles.OpenFile | internal/proxy/filesystem.go:44-107 | opening without creating succeeds exactly when Stat finds something, with the same kind and size; a stored file is then ready for a session of reads and seeks |
| ProxyFiles.ProxyFile.Read | internal/proxy/filesystem.go:192-238 | returns a prefix of what the in-memory file has left, and keeps the reader at exactly the rest of the file |
| ProxyFiles.ProxyFile.Seek | internal/proxy/filesystem.go:240-273 | goes to the sum of delta and the start, the position or the end of the file when that is a position; a negative sum, or one beyond int64 that wraps around to a negative value, is refused and moves nothing; the reader is dropped exactly when the position changes |
| ProxyFiles.SeekGoesTo | internal/proxy/filesystem.go:240-273 | the seeks of the file in memory, which a session follows, go to the same sums |
| ProxyFiles.ProxyFile.Session | internal/proxy/filesystem.go:192-273 | every sequence of seeks and reads, at any times, gives outcomes that the content held in memory could give |
| ProxyFiles.ReadsAreContiguous | internal/proxy/filesystem.go:192-238 | reads without a seek in between return one contiguous stretch, and end of file means the rest was returned in full |
| ProxyFiles.ReadsReachTheEnd | internal/proxy/filesystem.go:192-238 | reading on with room in the buffer returns every remaining byte and then end of file |
| ProxyFiles.ProxyFile.Write | internal/proxy/filesystem.go:327-352 | what went into the pipe is the concatenation of the writes, and the position moves along |
| ProxyFiles.ProxyFile.CloseNew | internal/proxy/filesystem.go:169-190 | closing uploads the written bytes, or leaves a live placeholder when nothing was written |
| Fuse.ClearVaultFS.NewWriteHandle | internal/fuse/fs.go:513-520 | one Open step: a new handle under the next id |
| Fuse.ClearVaultFS.WriteAt | internal/fuse/fs.go:338-381 | appends in order, and refuses an unknown handle and a write out of order with their error codes and without a change |
| Fuse.ClearVaultFS.RenamePath | internal/fuse/fs.go:464-474 | deferred on a handle that writes the path, whichever the table yields, without touching the proxy; else the proxy's rename of a file, a folder with all below it, or a placeholder; else an error |
| Fuse.ClearVaultFS.DeferRename | internal/fuse/fs.go:547-558 | the search through the table, in any order, finds a handle that writes the path if there is one, among several any of them, and changes nothing if there is none |
| Fuse.ClearVaultFS.Release | internal/fuse/fs.go:387-427 | in every branch what is stored and answered: of a written file, 0 exactly when neither upload nor rename fails, and then its bytes stand at the target; an upload that fails answers -5 and stores nothing; an unwritten file is empty at its path or a placeholder at its target |
| Fuse.RunStaysSound | internal/fuse/fs.go:338-558 | over every interleaving of steps, colliding handles included, each handle is in one table only and holds exactly the bytes whose writes were accepted |
| Fuse.StepKeepsHandle | internal/fuse/fs.go:338-558 | a step that leaves the file of a handle alone, renames of folders and renames during Release included, keeps the relation between the handle, its deferred rename, what stands where, and what its clients saw |
| Fuse.RunKeepsHandle | internal/fuse/fs.go:338-558 | so does every interleaving of such steps, whatever the other handles do to one another |
| Fuse.ReleaseDelivers | internal/fuse/fs.go:387-427 | for each handle, after every run that leaves its file alone: whichever step Release answers 0 from, its upload or what follows, the last acknowledged target holds exactly the accepted bytes and the old path is gone if and only if the file was written or stayed at its path; an unwritten placeholder candidate leaves its placeholder at the target; `expected` is the number of bytes |
| Fuse.FailedUploadAnswers | internal/fuse/fs.go:411-416 | in every state an upload that fails ends its Release with -5 and stores nothing |
| Fuse.CandidateContains | internal/fuse/fs.go:560-563 | a placeholder candidate is a path whose last component contains `.~#` |
| Fuse.UnwrittenStays | internal/fuse/fs.go:392-412 | a run in which a rename is acknowledged and Release returns 0, but the empty file is at the old path |
| Fuse.TargetTaken | internal/fuse/fs.go:412-427 | in any state where one uploaded file is to be moved onto another, both Releases return 0 and the first has replaced the second |
| Fuse.OverwrittenInFlight | internal/fuse/fs.go:387-427 | a run that leads there: a file renamed onto one still being written, whose accepted bytes are gone although its Release returns 0 |
| Fuse.FolderRenameTakesUploaded | internal/fuse/fs.go:464-474 | an acknowledged folder rename moves a file below it that is uploaded, and leaves one still being written bound for its old path |
| FuseProxies.UploadIsStored | internal/proxy/proxy.go:220-301 | what FUSE takes an upload to do, finished or failed, is what UploadFile does to folders, files and placeholders |
| FuseProxies.ReleaseSavesPlaceholder | internal/fuse/fs.go:392-403 | what FUSE takes the Release of an unwritten placeholder candidate to do is SavePlaceholder at its last target |
| FuseProxies.RenameIsRename | internal/proxy/proxy.go:456-470 | what FUSE takes a rename to do, and what it answers, is what RenameFile does |
| FuseProxies.RenamesAgree | internal/metadata/local.go:243-300 | FUSE admits exactly the renames that the metadata store supports |
| Fuse.HandleIdsFresh | internal/fuse/fs.go:513-520 | a handle id is never 0 and never reused |
| Fuse.OnlySequentialWrites | internal/fuse/fs.go:338-347 | in a reachable state a write is accepted exactly at the end of what was accepted before, and otherwise changes nothing |
| Shares.JourneyKeepsMeaning | internal/proxy/tar_util.go:162-227 | one record exported and imported keeps path, object, size, nonce and content, and its key unwraps to the same file key |
| Shares.SealedFormat | internal/proxy/tar_util.go:162-227 | records and private keys are sealed chunk by chunk under their key, with twelve zero bytes for a base nonce |
| Shares.TarWriter.AddFileToTar | internal/proxy/tar_util.go:162-227 | appends the record with its directory and its key in the clear, or without a key if it has none, and fails exactly when the key does not unwrap or the package key has the wrong length |
| Shares.TarWriter.AddDirectoryToTar | internal/proxy/tar_util.go:230-266 | the recursion adds one record for every file below the directory and ends |
| Shares.CreateTarPackage | internal/proxy/tar_util.go:72-159 | the archive holds a sealed record for each file below the paths, and a manifest with their names, the wrapped key and the sum of their sizes |
| Shares.ImportLook | internal/proxy/tar_util.go:339-396 | path by path, what importing a list of records changes: the records, missing parents, nothing else |
| Shares.ExtractTarPackage | internal/proxy/tar_util.go:290-396 | a well-formed package is imported completely |
| Shares.ImportOne | internal/proxy/tar_util.go:345-392 | one record is opened, its key wrapped under the new master key, and saved at its path without its directory field |
| Shares.InvExportable | internal/proxy/tar_util.go:72-159 | every consistent vault can be exported |
| Shares.AppendEncryptedKey | internal/proxy/proxy_asymmetric.go:20-79 | the private key is sealed under the password and becomes one more entry |
| Shares.AppendToTarFile | internal/proxy/proxy_asymmetric.go:178-237 | cutting off the 1024-byte trailer and writing entry and trailer again gives the tar file of the longer list |
| Shares.ExtractEncryptedKey | internal/proxy/proxy_asymmetric.go:240-264 | returns the content of the first key entry, and fails exactly when there is none |
| Shares.RecoverKey | internal/proxy/proxy_asymmetric.go:82-125 | the same password gives back the private key |
| Shares.ShareAndReceive | internal/proxy/proxy_asymmetric.go:20-125 | packing at one vault and receiving at another delivers every file below the shared paths with the same meaning and leaves every other path as it was |
| Shares.ReceivingKeepsInv | internal/proxy/tar_util.go:339-396 | receiving keeps the vault consistent if and only if the shared objects are within its reach and none of its other files names one of them |
| Shares.ClaimedIsLost | internal/proxy/tar_util.go:339-396 | when a shared file and another file of the receiver name one object, removing either at the receiver leaves the other without content |
| Shares.KnownElsewhere | internal/proxy/tar_util.go:339-396 | two consistent vaults where that happens: the receiver has the shared file already, under another name |
| Shares.SameMeaningSameContent | internal/proxy/tar_util.go:290-396 | a delivered file reads the same at both vaults |
| Auth.Authorizer.Factory | pkg/gowebdav/auth.go:190-222 | the nested loops pick each factory at most once, in order of registration, and install what they picked as the default |
| Auth.CandidatesAre | pkg/gowebdav/auth.go:190-222 | a factory is picked exactly when it creates an authenticator for one of the challenges, and in order of registration |
| Auth.AuthShim.Verify | pkg/gowebdav/auth.go:254-321 | one response changes request and default as Step says, the object they share included; a single authenticator gives success exactly when its credentials were taken, an error otherwise, and changes nothing |
| Auth.AuthShim.Redoing | pkg/gowebdav/requests.go:20-74 | the redo loop ends against every server, and its outcome is Negotiation's |
| Auth.Req | pkg/gowebdav/requests.go:13-77 | how many round trips a request takes, how it ends and what default it leaves, as the reference InUse, Ending and DefaultAfter tells them without stepping through the negotiation; at most 2 plus the number of factories round trips from a fresh client |
| Auth.RequestIs | pkg/gowebdav/requests.go:13-77 | for every usable or stuck default, all answers and all failures to rewind, the negotiation is that reference: every round trip but the last goes on, the last ends it, and an accepted authenticator becomes the default |
| Auth.DoneExactly | pkg/gowebdav/requests.go:13-77 | a request succeeds if and only if its last answer came without a challenge while no authenticator was in use, or took the credentials of the one in use, which may be one tried in turn |
| Auth.EndingOfStep | pkg/gowebdav/auth.go:254-331 | after each answer the request goes on, ends well or ends with just the error that the reference gives |
| Auth.RedoUsesFuel | pkg/gowebdav/auth.go:254-383 | every redo makes the measure of stage and remaining authenticators smaller |
| Auth.NegotiationBound | pkg/gowebdav/requests.go:20-74 | the measure bounds the number of round trips |
| Auth.BoundIsSharp | pkg/gowebdav/requests.go:20-74 | for every number of factories some server needs exactly that many |
| Auth.SticksExactly | pkg/gowebdav/auth.go:190-331 | from a usable default no request crashes, and the default becomes unusable if and only if the answers make the factory pick several authenticators of which none, tried in turn while the body can be sent again, is accepted |
| Auth.ChoosingSticks | pkg/gowebdav/auth.go:300-331 | the same for a request that is already choosing |
| Auth.NeverCrashes | pkg/gowebdav/auth.go:300-321 | while the negotiator of a request is the default, its callback is set |
| Auth.TwoRefused | pkg/gowebdav/auth.go:190-331 | two authenticators both refused leave the default unusable, and the next accepted request crashes |
| Auth.StuckForever | pkg/gowebdav/auth.go:300-339 | from an unusable default no request succeeds or changes it, and one crashes exactly when an authenticator tried in turn is accepted |
| Auth.RunsStaySettled | pkg/gowebdav/auth.go:153-177 | over every sequence of requests the default is usable or unusable in just this sense, and stays unusable |

## Left out

- Shares.ExtractTarPackage: assumes a package of the form CreateTarPackage makes, for places where its files fit; malformed archives are not modelled.
- Shares.ShareAndReceive: export paths exist; the source dereferences nil metadata for one that does not.
- Proxies.Proxy.UploadFile: the remote drains its reader; a remote that returns early leaves the writing side of the pipe blocked.
- Proxies.Proxy.RemoveAll: remote Delete calls succeed; their failures are only logged by the source.
- Proxies.Proxy.DownloadRange: file sizes up to 2^62.
- Engines.Engine.DecryptRange: start and length are not negative.
- Engines.Engine.RangeIsSlice: ciphertexts shorter than 2^63 by one sealed chunk, so that later offsets do not wrap.
- LocalStorages.LocalStorage.Rename: for a source that exists, targets are free or a file replaced by a file, and lie apart from the source; merging into an existing directory and renaming into one's own subtree are not modelled. What a source that only spells a file on disk leaves behind is stated on the disk.
- Proxies.Proxy.RenameFile: the same targets; sources that only spell a file on disk are left to LocalStorage.Rename.
- Fuse.ReleaseDelivers: speaks of a handle that was opened where nothing is, while no step of anyone else puts or takes away something at, above or below its path, or at or above its content; `OverwrittenInFlight` shows what happens otherwise. Renames and uploads are of the kinds the metadata store supports.
- Fuse.ClearVaultFS.NewWriteHandle: the removal that Create and Open run before it is one of the `Other` steps, so the step itself starts where nothing is.
- Fuse.HandleIdsFresh: fewer than 2^64 handles.
- Fuse.ClearVaultFS.WriteAt: a write enters the pipe whole; handles are values in a table, so data races on their fields are not modelled.
- ProxyFiles.ProxyFile.Session: the file does not change while it is open.
- Auth.Req: authenticators answer success or a plain error, as BasicAuth does, network errors are not modelled, and one request runs at a time; Digest's stale renegotiation and Passport's redirects redo without a bound.
- FUSE `Read`, `Getattr`, `Readdir` and `Truncate`, and the table of pending sizes.
- Objects that no metadata names any more, after an overwrite or a rename onto a file: the invariant goes from metadata to objects only.
- Failing writers on the receiving end of a stream; errors of the local file system other than those of `os.Rename`.
- Time stamps in metadata, logging, sleeps and retry timing.
- Path cleaning: paths are lists of components that are already clean; text is not checked for valid encoding.
- `ExportLocal`, the S3, WebDAV and local clients, HTTP handlers, configuration, command line and mounting.
- The tar format beyond 512-byte blocks and the two-block trailer.
