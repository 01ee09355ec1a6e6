/** The data model of the listing utility: the two structures of ls.h, the
    byte strings it works on, and the abstract filesystem that stands in for
    opendir/readdir, lstat and stat. */
module LsTypes {

  /** An unsigned char, as strcmp and isprint see it. */
  newtype byte = x: int | 0 <= x < 256

  /** A C string without its terminating NUL.  The type does not exclude a
      0 byte, which no C string holds; no result here depends on its
      absence. */
  type Name = seq<byte>
  type Path = seq<byte>

  const SLASH: byte := 0x2F
  const DOT: byte := 0x2E
  const QUESTION: byte := 0x3F
  const SPACE: byte := 0x20

  const Dot: Name := [DOT]
  const DotDot: Name := [DOT, DOT]

  /** PATH_MAX of <limits.h>, counting the terminating NUL. */
  const PATH_MAX: nat := 4096

  datatype Option<T> = None | Some(value: T)

  /** The fields of struct stat that the core reads.  st_size and st_blocks
      are never negative for what lstat reports, hence nat. */
  datatype Stat = Stat(
    mode: bv32,
    ino: nat,
    nlink: nat,
    uid: nat,
    gid: nat,
    size: nat,
    blocks: nat,
    atime: int,
    mtime: int,
    ctime: int)

  /** What a file_entry holds when no metadata was fetched.  In C the field is
      left uninitialised; the model stores this value, and Listing proves that
      nothing then reads it. */
  const Unfetched: Stat := Stat(0, 0, 0, 0, 0, 0, 0, 0, 0, 0)

  /** struct file_entry: a name (a bare file name in the collector, a full
      path in the walker's subdirectory list) and its lstat record. */
  datatype FileEntry = FileEntry(name: Name, sb: Stat)

  /** struct options, one field per flag. */
  datatype Options = Options(
    showAll: bool,          // -a
    showAlmostAll: bool,    // -A
    longFormat: bool,       // -l
    numericIds: bool,       // -n
    classify: bool,         // -F
    recursive: bool,        // -R
    reverse: bool,          // -r
    unsorted: bool,         // -f
    sortSize: bool,         // -S
    sortTime: bool,         // -t
    useAtime: bool,         // -u
    useCtime: bool,         // -c
    humanReadable: bool,    // -h
    kilobytes: bool,        // -k
    inode: bool,            // -i
    blocks: bool,           // -s
    dirAsFile: bool,        // -d
    printableOnly: bool)    // -q / -w

  // File type bits of st_mode (<sys/stat.h>).
  const TypeMask: bv32 := 0xF000
  const TypeFifo: bv32 := 0x1000
  const TypeDir: bv32 := 0x4000
  const TypeReg: bv32 := 0x8000
  const TypeLink: bv32 := 0xA000
  const TypeSock: bv32 := 0xC000
  const TypeWhiteout: bv32 := 0xE000
  const ExecUser: bv32 := 0x40
  const ExecGroup: bv32 := 0x8
  const ExecOther: bv32 := 0x1

  predicate IsDir(m: bv32) { m & TypeMask == TypeDir }
  predicate IsLink(m: bv32) { m & TypeMask == TypeLink }
  predicate IsSock(m: bv32) { m & TypeMask == TypeSock }
  predicate IsFifo(m: bv32) { m & TypeMask == TypeFifo }
  predicate IsReg(m: bv32) { m & TypeMask == TypeReg }
  predicate IsWhiteout(m: bv32) { m & TypeMask == TypeWhiteout }
  predicate AnyExec(m: bv32) {
    m & ExecUser != 0 || m & ExecGroup != 0 || m & ExecOther != 0
  }

  /** The filesystem as the core observes it, keyed by the path strings the
      program passes to the system:
      - lstat: what lstat(2) reports for a path (absent: lstat fails);
      - stat: what stat(2), which follows symbolic links, reports;
      - dirs: the paths opendir(3) opens, each with its readdir order. */
  datatype FileSystem = FileSystem(
    lstat: map<Path, Stat>,
    stat: map<Path, Stat>,
    dirs: map<Path, seq<Name>>)

  predicate DistinctNames(s: seq<FileEntry>) {
    forall i, j :: 0 <= i < j < |s| ==> s[i].name != s[j].name
  }

  predicate NoDuplicates<T(==)>(s: seq<T>) {
    forall i, j :: 0 <= i < j < |s| ==> s[i] != s[j]
  }

  /** readdir never yields the same name twice within one directory. */
  predicate DistinctListings(fs: FileSystem) {
    forall p :: p in fs.dirs ==> NoDuplicates(fs.dirs[p])
  }

  /** is_directory (util.c): stat, following links, says directory. */
  predicate IsDirectory(fs: FileSystem, p: Path) {
    p in fs.stat && IsDir(fs.stat[p].mode)
  }

  function Names(s: seq<FileEntry>): (r: seq<Name>)
    ensures |r| == |s| && forall i :: 0 <= i < |s| ==> r[i] == s[i].name
  {
    seq(|s|, i requires 0 <= i < |s| => s[i].name)
  }
}
