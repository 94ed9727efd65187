/** The parts of the operating system and the .NET stream library the
    filesystem container relies on, reduced to what it observes: a store of
    files (name to bytes) with a set of directories, and a readable stream of
    bytes with a position. */
module FileSystem {

  newtype byte = x: int | 0 <= x < 256

  /** Failures surfaced by the filesystem container. */
  datatype IoError =
    | AlreadyExists              // "File already exists." (an IOException)
    | FileNotFound(fullName: string)

  datatype Result<T> = Ok(value: T) | Err(error: IoError)

  /** The local disk: the bytes of every file by full name, and the directories
      that exist. */
  class FileStore {
    var files: map<string, seq<byte>>
    var dirs: set<string>

    constructor (files: map<string, seq<byte>>, dirs: set<string>)
      ensures this.files == files && this.dirs == dirs
    {
      this.files := files;
      this.dirs := dirs;
    }

    predicate FileExists(path: string)
      reads this
    {
      path in files
    }

    predicate DirectoryExists(dir: string)
      reads this
    {
      dir in dirs
    }

    /** Creating a directory that already exists does nothing. */
    method CreateDirectory(dir: string)
      modifies this
      ensures dirs == old(dirs) + {dir}
      ensures files == old(files)
    {
      dirs := dirs + {dir};
    }

    /** Opening a file in create mode: a new file is made empty, an existing one
        is truncated. */
    method CreateFile(path: string)
      modifies this
      ensures files == old(files)[path := []]
      ensures dirs == old(dirs)
    {
      files := files[path := []];
    }

    /** Appending bytes to a file opened for writing. */
    method Append(path: string, bytes: seq<byte>)
      requires path in files
      modifies this
      ensures files == old(files)[path := old(files[path]) + bytes]
      ensures dirs == old(dirs)
    {
      files := files[path := files[path] + bytes];
    }

    method DeleteFile(path: string)
      modifies this
      ensures files == old(files) - {path}
      ensures dirs == old(dirs)
    {
      files := files - {path};
    }
  }

  /** A seekable read stream: its bytes (so `Length` is `|data|`) and the
      position of the next byte to be read. */
  class ByteStream {
    const data: seq<byte>
    var position: nat

    ghost predicate Valid()
      reads this
    {
      position <= |data|
    }

    constructor (data: seq<byte>, position: nat)
      requires position <= |data|
      ensures this.data == data && this.position == position && Valid()
    {
      this.data := data;
      this.position := position;
    }

    /** Reads up to `count` bytes into the start of `buffer` and moves the
        position past them. At least one byte arrives whenever one was asked for
        and one is left; how many beyond that is up to the stream. Zero comes
        back only when nothing was asked for or the stream is at its end. */
    method Read(buffer: array<byte>, count: int) returns (n: nat)
      requires Valid()
      requires 0 <= count <= buffer.Length
      modifies this, buffer
      ensures Valid()
      ensures n <= count && position == old(position) + n
      ensures n == 0 <==> count == 0 || old(position) == |data|
      ensures buffer[..n] == data[old(position)..position]
      ensures buffer[n..] == old(buffer[n..])
    {
      if count == 0 || position == |data| {
        n := 0;
      } else {
        var available := |data| - position;
        n :| 1 <= n <= count && n <= available;
        forall i | 0 <= i < n {
          buffer[i] := data[position + i];
        }
        position := position + n;
      }
    }
  }
}
