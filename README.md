# Filesystem file container, modelled in Dafny

Silk.FileContainers puts one interface over several kinds of blob storage. A
container resolves a storage path, such as `a/b.txt`, to a blob. It can start an
upload to that path, report whether a blob exists there and how large it is,
and delete it. This project models the local-disk adapter, `FilesystemContainer`,
and proves properties of the model.

- `StorePaths.dfy` holds the path logic. It covers how the root directory is
  normalised when a container is built (trailing `/` and `\` are stripped in a
  loop). It covers how a storage path resolves to `root + "/" + path`, and how
  the reported storage path is recovered as the tail of the resolved name. It
  also covers which directory an upload makes sure exists.
- `FileSystem.dfy` stands in for the operating system and the .NET stream
  library. `FileStore` is the disk: a map from full file names to bytes plus a
  set of directories. `ByteStream` is a seekable read stream: its bytes and a
  position. A read returns between 1 and the requested number of bytes when
  bytes are requested and some remain, and 0 otherwise.
- `FileContainers.dfy` holds the container itself: its two constructors, the
  query, upload and delete operations, and the file-information snapshot with
  its read stream. It also holds the upload class, whose copy loop moves the
  source through an 8192-byte buffer into a destination opened in create
  (truncating) mode. Each read asks for at most what is left of the source.
  The loop stops when a read returns nothing. The upload then looks the file
  up again through the container.

The operating system is passed to each operation as a `FileStore`, since the
code reaches it through static file and directory calls. Asynchronous tasks are
modelled as synchronous calls. An upload returns the file information it
re-queried, or the error it raised, as a `Result`.

Two behaviours of this adapter differ from what a caller of the shared
interface might expect; the model follows the adapter's code:

- The object-storage adapter reports a missing object with `Exists` false and
  `FileLength` 0 (`AwsS3Container.cs:224-226`). This adapter's `FileLength`
  reads `FileInfo.Length` (`FilesystemContainer.cs:85`), which the .NET
  runtime answers with `FileNotFoundException` for a missing file.
  `FileInfo.FileLength` returns `Err(FileNotFound(..))` in that case.
- The constructor that takes a URI sets the container public whatever that
  URI is, null included (`FilesystemContainer.cs:24-25`). So a public
  container need not have a base URI. `FilesystemContainer.WithBaseUri` takes
  an `Option<Uri>` and keeps whatever it is given.

The `FileInfo` datatype stands for the private class `FilesystemFileInfo`
(`FilesystemContainer.cs:75-94`): its container, the resolved name, the
reported storage path, and the existence and size the runtime's file
information holds. Its members are `FileLength` and `GetReadStream`.

## Model

| member | source | states |
|---|---|---|
| `StorePaths.StandardizeStoreDirectory` | Silk.FileContainers/FilesystemContainer.cs:29-36 | the normalised root does not end in `/` or `\`; it is a prefix of the input and only separators were removed; it equals the reference trim |
| `StorePaths.TrimCharacterization` | Silk.FileContainers/FilesystemContainer.cs:29-36 | the reference trim is a prefix of its input, the removed tail is all separators, and the result does not end in a separator |
| `StorePaths.TrimUnique` | Silk.FileContainers/FilesystemContainer.cs:29-36 | any string not ending in a separator, followed by separators only, trims back to itself, so the characterization determines the result |
| `StorePaths.TrimIdempotent` | Silk.FileContainers/FilesystemContainer.cs:29-36 | normalising a normalised root changes nothing |
| `StorePaths.FullPath` | Silk.FileContainers/FilesystemContainer.cs:70-73 | the resolved path starts with the root, has `/` right after it, ends with the storage path, and has no other characters |
| `StorePaths.TrailingPath` | Silk.FileContainers/FilesystemContainer.cs:58 | the reported path is exactly the last `count` characters of the resolved name; the name must be at least that long |
| `StorePaths.TrailingPathOfFullPath` | Silk.FileContainers/FilesystemContainer.cs:55-58 | when the resolved name is the storage path's own full path, it is long enough, and its tail is the storage path itself |
| `StorePaths.LastSeparator` | Silk.FileContainers/FilesystemContainer.cs:42-43 | the index found holds a separator and no later character is one, or it is -1 |
| `StorePaths.ParentDirectory` | Silk.FileContainers/FilesystemContainer.cs:41-43 | the directory of a file is a prefix of its full name: everything before the last separator, with that separator kept when what precedes it is a volume root (`/`, `C:/`) |
| `StorePaths.LastSeparatorOfConcat` | Silk.FileContainers/FilesystemContainer.cs:42-43 | the last separator of `a + b` lies in `b` when `b` has one, and otherwise is the last separator of `a` |
| `StorePaths.LastSeparatorOfFullPath` | Silk.FileContainers/FilesystemContainer.cs:40-41 | the last separator of a resolved path is the storage path's own last separator, shifted past the root, or the `/` after the root when the path has none |
| `StorePaths.ParentOfFullPathInRoot` | Silk.FileContainers/FilesystemContainer.cs:40-43 | an upload to a path with no separator needs only the root directory, named with its separator when the root is a volume root (a root configured as `/` is `/`) |
| `StorePaths.RootDirectoryKeepsSeparator` | Silk.FileContainers/FilesystemContainer.cs:41-43 | the directory of `/p` is `/`, that of `C:/p` is `C:/`, and that of `/srv/p` is `/srv` |
| `StorePaths.SubdirectoryIsNoVolumeRoot` | Silk.FileContainers/FilesystemContainer.cs:41-43 | a directory below the root is never taken for a volume root, so it is named without a trailing separator |
| `StorePaths.ParentOfFullPathInSubdirectory` | Silk.FileContainers/FilesystemContainer.cs:40-43 | an upload to `d/f` needs the directory `root/d` |
| `StorePaths.ParentOfFullPathWithinRoot` | Silk.FileContainers/FilesystemContainer.cs:40-43 | the directory an upload creates always starts with the root |
| `FileSystem.ByteStream.Read` | Silk.FileContainers/FilesystemContainer.cs:140 | a read returns at most the count asked for, and returns 0 only when 0 was asked for or the stream is at its end; the buffer's first `n` bytes are the next `n` bytes of the stream and the position moves past them |
| `FileContainers.ReadSize` | Silk.FileContainers/FilesystemContainer.cs:137-139 | a read request is at most 8192 bytes and at most length minus position, and equals one of the two |
| `FileContainers.FileInfo.FileLength` | Silk.FileContainers/FilesystemContainer.cs:85 | a size is reported exactly when the file existed at query time; otherwise the call fails with FileNotFound naming the file |
| `FileContainers.FileInfo.GetReadStream` | Silk.FileContainers/FilesystemContainer.cs:96-101 | for a missing file the call fails with FileNotFound; for a file present on disk the stream is a newly opened one, holds the file's bytes and starts at position 0 |
| `FileContainers.FilesystemContainer.constructor` | Silk.FileContainers/FilesystemContainer.cs:15-20 | a container built from a root alone is not public, has no base URI, and keeps the normalised root |
| `FileContainers.FilesystemContainer.WithBaseUri` | Silk.FileContainers/FilesystemContainer.cs:22-27 | a container built with a base URI is public, keeps that URI as given, and keeps the normalised root |
| `FileContainers.FilesystemContainer.GetFileInfo` | Silk.FileContainers/FilesystemContainer.cs:53-60 | the snapshot names the resolved path and reports the storage path as requested; it says the file exists exactly when the disk has it, and gives its current size |
| `FileContainers.FilesystemContainer.DeleteFile` | Silk.FileContainers/FilesystemContainer.cs:62-68 | the file at the resolved path is gone afterwards; on an absent path the disk is unchanged; no other file or directory changes |
| `FileContainers.FilesystemContainer.StartUpload` | Silk.FileContainers/FilesystemContainer.cs:38-51 | the parent directory exists afterwards in every case. Without overwrite permission onto an existing file, the call fails with AlreadyExists, and no file changes and no byte is read. Otherwise only the target file changes: it holds exactly the source's remaining bytes, and the returned info reports it present with that length |
| `FileContainers.FilesystemUpload.constructor` | Silk.FileContainers/FilesystemContainer.cs:117-123 | the upload keeps the storage path, the destination's full path, the source stream and the container it was given |
| `FileSystem.FileStore.CreateDirectory` | Silk.FileContainers/FilesystemContainer.cs:42-43 | afterwards the directory exists; creating one that exists changes nothing; no file changes |
| `FileSystem.FileStore.CreateFile` | Silk.FileContainers/FilesystemContainer.cs:133 | opening in create mode leaves the file present and empty, whether it was new or held bytes before; no other file and no directory changes |
| `FileSystem.FileStore.Append` | Silk.FileContainers/FilesystemContainer.cs:142 | a write adds exactly the given bytes at the end of the open file; no other file and no directory changes |
| `FileSystem.FileStore.DeleteFile` | Silk.FileContainers/FilesystemContainer.cs:66 | afterwards the file is gone; no other file and no directory changes |
| `FileSystem.FileStore.DirectoryExists` | Silk.FileContainers/FilesystemContainer.cs:42 | a directory exists exactly when the store's directory set holds it; a file of that name does not count |
| `FileSystem.FileStore.FileExists` | Silk.FileContainers/FilesystemContainer.cs:44 | a path exists as a file exactly when the store holds bytes for it; a directory of that name does not count |
| `FileContainers.FilesystemUpload.PerformUpload` | Silk.FileContainers/FilesystemContainer.cs:130-148 | the copy consumes the source to its end. The destination holds exactly the source bytes from the starting position on, with no earlier contents. No other file and no directory changes. The re-queried info reports the file present with the copied length |
| `FileContainers.DeleteThenRead` | Silk.FileContainers/FilesystemContainer.cs:96-100 | after a delete, the path is reported missing, its size cannot be read, and opening a read stream fails with FileNotFound |
| `FileContainers.UploadThenRead` | Silk.FileContainers/FilesystemContainer.cs:133-147 | after an accepted upload, the reported length is the number of bytes copied, and a read stream yields exactly those bytes |

## Left out

- The object-storage adapter (`AwsS3Container.cs`) is not part of this model. Each of its operations is a single call into the cloud SDK, including its stream wrapper.
- The interfaces `IFileContainer`, `IFileInfo` and `IFileUpload` declare no behaviour. The model implements the one filesystem variant directly, with no common abstract type.
- The asynchronous machinery of an upload is not modelled: `Start`, `Task`, `Result` and `HasFinished`. An upload runs to completion inside `StartUpload`.
- `FileInfo.IsPubliclyAccessible` only forwards to its container's flag. The model's `FileInfo` keeps its container, and that flag is read there.
- The operating system is reduced to a map of files and a set of directories.
  - Path normalisation by `FileInfo.FullName` is taken to be the identity.
  - `Refresh` is not modelled separately; each query reads the store.
  - Share modes, handles and their disposal are not modelled.
  - Directory creation records only the immediate parent directory, not its ancestors. A directory and a file may share a name.
  - A storage path that is empty or ends in `/` or `\` resolves to a directory name (`srv/`). There the runtime refuses to create the destination file and the upload fails; the model stores a file under that name.
  - Permission, disk-full and I/O failures are not modelled. These include a failure in the middle of a copy, which would leave a truncated, partly written file.
- Parent directories treat both `/` and `\` as separators, as on Windows.
- `StorePaths.StandardizeStoreDirectory`: `EndsWith` is modelled as an ordinal comparison. Culture-sensitive matching of ignorable characters is not captured.
- `FileSystem.ByteStream`: a stream whose position lies past its end is not modelled. There the narrowing `(int)(Length - Position)` at `FilesystemContainer.cs:139` runs on a negative difference. Within the 32-bit range the read size is negative and `ReadAsync` throws. More than 2^31 past the end it wraps to a 32-bit value. If that value is negative or above 8192, `ReadAsync` throws (a count larger than the 8192-byte buffer is refused). If it is from 0 to 8192, the read returns 0 and the upload succeeds with an empty file. A stream that cannot report its length is not modelled either.
- 64-bit lengths and positions are unbounded integers. Within the modelled domain (position at most length) the narrowing to a 32-bit read size is applied only to a value from 0 to 8191, so it is exact.
- `StorePaths.ParentDirectory`: the runtime rewrites `/` as `\` on Windows and collapses runs of separators; the model keeps the name as written. UNC roots (`\\server\share`) are not recognised as volume roots.
