/** Values shared by the stages of the duplicate-file scanner in main.go. */
module Types {

  newtype Byte = x: int | 0 <= x < 256

  /** A directory entry name as os.ReadDir returns it. */
  type Name = string

  /** A path as the list of names filepath.Join puts together. The empty
      path plays the part of the empty string "". */
  type Path = seq<Name>

  /** What os.Open, os.Remove and os.Symlink see at a path: the bytes of a
      regular file, or the target of a symbolic link. */
  datatype File = Regular(content: seq<Byte>) | Symlink(target: Path)

  /** The filesystem as the hashing and resolving stages see it. */
  type Fs = map<Path, File>

  /** FileOp (main.go:15-18): a path and the lowercase-hex fingerprint of
      its content, sent from a hashing worker to a database worker. */
  datatype FileOp = FileOp(path: Path, hash: string)

  datatype Option<T> = None | Some(value: T)

  datatype IoError = OpenFailed | ReadFailed

  datatype Result<T> = Ok(value: T) | Err(error: IoError)

  /** The first element of an oracle sequence, or `d` once it is used up. */
  function FirstOr<T>(s: seq<T>, d: T): T
  {
    if s == [] then d else s[0]
  }

  /** An oracle sequence after its first element is used. */
  function Rest<T>(s: seq<T>): seq<T>
  {
    if s == [] then [] else s[1..]
  }
}
