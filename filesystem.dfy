/** The filesystem as the code sees it: which paths exist, which are
    directories or regular files, what a directory lists, what a file holds
    and the size `stat` reports. Every operation of the model reads it as a
    parameter instead of doing I/O. Paths are plain strings; no normalisation
    is applied. */
module Fs {
  import opened Wrappers

  type byte = x: int | 0 <= x < 256

  /** File contents. Files of 4 GiB or more are outside the model: the
      playlist decoder indexes its buffer with 32-bit unsigned integers. */
  type Bytes = s: seq<byte> | |s| < 0x1_0000_0000

  datatype Node =
    | File(bytes: Bytes)
    | Dir(entries: seq<string>, dirSize: nat)
    | Special(specialSize: nat)  // exists, but is neither a regular file nor a directory

  datatype FileSystem = FileSystem(nodes: map<string, Node>) {

    predicate Exists(p: string) {
      p in nodes
    }

    predicate IsDir(p: string) {
      p in nodes && nodes[p].Dir?
    }

    predicate IsRegularFile(p: string) {
      p in nodes && nodes[p].File?
    }

    /** The whole file, or None when it cannot be opened and read. */
    function ReadFile(p: string): Option<Bytes> {
      if IsRegularFile(p) then Some(nodes[p].bytes) else None
    }

    /** The entry names of a directory, in enumeration order, or None when
        the path is not a directory. Every directory of this value can be
        listed: a directory that exists but cannot be read is not
        representable. */
    function ReadDir(p: string): Option<seq<string>> {
      if IsDir(p) then Some(nodes[p].entries) else None
    }

    /** The size `stat` reports, or None when `stat` fails. */
    function Stat(p: string): Option<nat> {
      if p !in nodes then None
      else match nodes[p]
        case File(b) => Some(|b|)
        case Dir(_, n) => Some(n)
        case Special(n) => Some(n)
    }
  }
}
