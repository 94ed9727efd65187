/** The filesystem container: a root directory on the local disk under which
    storage paths are resolved, with upload, query and delete operations and the
    chunked copy that performs an upload. The disk itself is the `FileStore`
    passed to each operation. */
module FileContainers {
  import opened StorePaths
  import opened FileSystem

  datatype Option<T> = None | Some(value: T)

  /** The public base address of a container, kept as its text. */
  datatype Uri = Uri(text: string)

  /** Size of the buffer the upload copies through. */
  const BufferSize: nat := 8192

  /** How many bytes the copy loop asks the source for: a full buffer, or what
      is left of the source when that is less. */
  function ReadSize(length: int, position: int): (size: int)
    ensures size <= BufferSize && size <= length - position
    ensures size == BufferSize || size == length - position
  {
    if length - position < BufferSize then length - position else BufferSize
  }

  /** A snapshot of one file, taken when the container was queried. `length` is
      the file's size at that moment, and is meaningful only when `fileExists`. */
  datatype FileInfo = FileInfo(
    container: FilesystemContainer,
    fullName: string,
    storagePath: string,
    fileExists: bool,
    length: nat)
  {
    /** The snapshot's size; asking it of a file that did not exist fails the
        way the runtime's file information does, naming the file. */
    function FileLength(): (r: Result<nat>)
      ensures r.Ok? <==> fileExists
      ensures r.Ok? ==> r.value == length
      ensures r.Err? ==> r.error == FileNotFound(fullName)
    {
      if fileExists then Ok(length) else Err(FileNotFound(fullName))
    }

    /** Opens the file for reading from its first byte. A snapshot of a missing
        file refuses at once; a file that has disappeared since the snapshot
        fails when it is opened. */
    method GetReadStream(fs: FileStore) returns (r: Result<ByteStream>)
      ensures !fileExists ==> r == Err(FileNotFound(fullName))
      ensures fileExists && fullName !in fs.files ==> r == Err(FileNotFound(fullName))
      ensures fileExists && fullName in fs.files ==>
        r.Ok? && r.value.data == fs.files[fullName] && r.value.position == 0 && r.value.Valid()
      ensures r.Ok? ==> fresh(r.value)
    {
      if !fileExists {
        return Err(FileNotFound(fullName));
      }
      if !fs.FileExists(fullName) {
        return Err(FileNotFound(fullName));
      }
      var stream := new ByteStream(fs.files[fullName], 0);
      r := Ok(stream);
    }
  }

  class FilesystemContainer {
    const storeDirectory: string
    const isPubliclyAccessible: bool
    const baseUri: Option<Uri>

    /** A private container: no public address. */
    constructor (storeDirectory: string)
      ensures !isPubliclyAccessible && baseUri == None
      ensures this.storeDirectory == TrimTrailingSeparators(storeDirectory)
      ensures !EndsWithSeparator(this.storeDirectory)
    {
      var root := StandardizeStoreDirectory(storeDirectory);
      this.isPubliclyAccessible := false;
      this.baseUri := None;
      this.storeDirectory := root;
    }

    /** A public container. The base address is stored as given, so a missing
        one still leaves the container marked public. */
    constructor WithBaseUri(storeDirectory: string, baseUri: Option<Uri>)
      ensures isPubliclyAccessible && this.baseUri == baseUri
      ensures this.storeDirectory == TrimTrailingSeparators(storeDirectory)
      ensures !EndsWithSeparator(this.storeDirectory)
    {
      var root := StandardizeStoreDirectory(storeDirectory);
      this.isPubliclyAccessible := true;
      this.baseUri := baseUri;
      this.storeDirectory := root;
    }

    /** Looks a storage path up on disk. The reported path is recovered from the
        end of the resolved name, and is the requested path itself. */
    method GetFileInfo(fs: FileStore, storagePath: string) returns (info: FileInfo)
      ensures info.container == this
      ensures info.fullName == FullPath(storeDirectory, storagePath)
      ensures info.storagePath == storagePath
      ensures info.fileExists <==> info.fullName in fs.files
      ensures info.fileExists ==> info.length == |fs.files[info.fullName]|
    {
      var fullFilePath := FullPath(storeDirectory, storagePath);
      var fullName := fullFilePath;
      var reported := TrailingPath(fullName, |storagePath|);
      var fileExists := fs.FileExists(fullName);
      info := FileInfo(this, fullName, reported, fileExists, if fileExists then |fs.files[fullName]| else 0);
    }

    /** Removes the file behind a storage path if there is one; otherwise
        nothing happens. No other file and no directory is touched. */
    method DeleteFile(fs: FileStore, storagePath: string)
      modifies fs
      ensures fs.files == old(fs.files) - {FullPath(storeDirectory, storagePath)}
      ensures FullPath(storeDirectory, storagePath) !in old(fs.files) ==> fs.files == old(fs.files)
      ensures fs.dirs == old(fs.dirs)
    {
      var fullFilePath := FullPath(storeDirectory, storagePath);
      if fs.FileExists(fullFilePath) {
        fs.DeleteFile(fullFilePath);
      }
    }

    /** Writes the rest of `source` to a storage path and reports the file as
        found on disk afterwards. The parent directory is created first, even
        when the upload is then refused because the file exists and overwriting
        was not allowed; a refused upload writes no file and reads no byte. */
    method StartUpload(fs: FileStore, storagePath: string, source: ByteStream, allowOverwrite: bool := false)
      returns (r: Result<FileInfo>)
      requires source.Valid()
      modifies fs, source
      ensures fs.dirs == old(fs.dirs) + {ParentDirectory(FullPath(storeDirectory, storagePath))}
      ensures !allowOverwrite && FullPath(storeDirectory, storagePath) in old(fs.files) ==>
        r == Err(AlreadyExists) && fs.files == old(fs.files) && source.position == old(source.position)
      ensures allowOverwrite || FullPath(storeDirectory, storagePath) !in old(fs.files) ==>
        && fs.files == old(fs.files)[FullPath(storeDirectory, storagePath) := source.data[old(source.position)..]]
        && source.position == |source.data|
        && r.Ok?
        && r.value.container == this
        && r.value.fullName == FullPath(storeDirectory, storagePath)
        && r.value.storagePath == storagePath
        && r.value.fileExists
        && r.value.length == |source.data| - old(source.position)
    {
      var fullFilePath := FullPath(storeDirectory, storagePath);
      var directory := ParentDirectory(fullFilePath);
      if !fs.DirectoryExists(directory) {
        fs.CreateDirectory(directory);
      }
      if !allowOverwrite && fs.FileExists(fullFilePath) {
        return Err(AlreadyExists);
      }
      var upload := new FilesystemUpload(storagePath, fullFilePath, source, this);
      var info := upload.PerformUpload(fs);
      r := Ok(info);
    }
  }

  /** One upload: where the bytes come from, where they go, and the container
      to re-query when they are written. */
  class FilesystemUpload {
    const storagePath: string
    const destinationFullPath: string
    const source: ByteStream
    const container: FilesystemContainer

    constructor (storagePath: string, fullPath: string, source: ByteStream, container: FilesystemContainer)
      ensures this.storagePath == storagePath && destinationFullPath == fullPath
      ensures this.source == source && this.container == container
    {
      this.storagePath := storagePath;
      this.destinationFullPath := fullPath;
      this.source := source;
      this.container := container;
    }

    /** Creates (or truncates) the destination, then copies the source from its
        current position to its end through a fixed buffer, asking each time
        for at most what is left, until a read returns nothing. The destination
        ends up holding exactly the bytes copied, and the file is then looked
        up again through the container. */
    method PerformUpload(fs: FileStore) returns (info: FileInfo)
      requires source.Valid()
      requires destinationFullPath == FullPath(container.storeDirectory, storagePath)
      modifies fs, source
      ensures source.position == |source.data|
      ensures fs.files == old(fs.files)[destinationFullPath := source.data[old(source.position)..]]
      ensures fs.dirs == old(fs.dirs)
      ensures info.container == container
      ensures info.fullName == destinationFullPath && info.storagePath == storagePath
      ensures info.fileExists && info.length == |source.data| - old(source.position)
    {
      var buffer := new byte[BufferSize];
      fs.CreateFile(destinationFullPath);
      assert source.data[source.position..source.position] == [];
      while true
        invariant source.Valid() && old(source.position) <= source.position
        invariant fs.files == old(fs.files)[destinationFullPath := source.data[old(source.position)..source.position]]
        invariant fs.dirs == old(fs.dirs)
        decreases |source.data| - source.position
      {
        var readSize := ReadSize(|source.data|, source.position);
        var readCount := source.Read(buffer, readSize);
        if readCount > 0 {
          ghost var before := old(source.position);
          assert source.data[before..source.position] ==
            source.data[before..source.position - readCount] + buffer[..readCount];
          fs.Append(destinationFullPath, buffer[..readCount]);
        } else {
          break;
        }
      }
      assert source.data[old(source.position)..source.position] == source.data[old(source.position)..];
      info := container.GetFileInfo(fs, storagePath);
    }
  }

  /** Deleting a storage path and then querying it reports a missing file whose
      size cannot be read and whose stream cannot be opened. */
  method DeleteThenRead(container: FilesystemContainer, fs: FileStore, storagePath: string)
    returns (info: FileInfo, stream: Result<ByteStream>)
    modifies fs
    ensures !info.fileExists && info.storagePath == storagePath
    ensures info.FileLength() == Err(FileNotFound(FullPath(container.storeDirectory, storagePath)))
    ensures stream == Err(FileNotFound(FullPath(container.storeDirectory, storagePath)))
  {
    container.DeleteFile(fs, storagePath);
    info := container.GetFileInfo(fs, storagePath);
    stream := info.GetReadStream(fs);
  }

  /** An accepted upload followed by a read gives back exactly the bytes that
      were uploaded, whatever the file held before. */
  method UploadThenRead(container: FilesystemContainer, fs: FileStore, storagePath: string,
                        source: ByteStream, allowOverwrite: bool)
    returns (upload: Result<FileInfo>, stream: Result<ByteStream>)
    requires source.Valid()
    requires allowOverwrite || FullPath(container.storeDirectory, storagePath) !in fs.files
    modifies fs, source
    ensures upload.Ok? && upload.value.FileLength() == Ok(|source.data| - old(source.position))
    ensures stream.Ok? && stream.value.data == source.data[old(source.position)..]
    ensures stream.value.position == 0
  {
    upload := container.StartUpload(fs, storagePath, source, allowOverwrite);
    stream := upload.value.GetReadStream(fs);
  }
}
