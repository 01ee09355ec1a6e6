/** The output decisions of print.c: the sanitised name of -q, the -F
    suffix, the fields of a long line and the cell of the column grid, and
    the output events that stand in for what the program writes. */
module Printer {
  import opened LsTypes
  import opened Units
  import opened Compare

  const AT: byte := 0x40
  const PERCENT: byte := 0x25
  const EQUALS: byte := 0x3D
  const PIPE: byte := 0x7C
  const STAR: byte := 0x2A

  /** isprint(3) in the C locale: space through tilde. */
  predicate IsPrint(b: byte) {
    0x20 <= b <= 0x7E
  }

  /** What print_filename_sanitized writes: one byte per input byte, the
      byte itself when printable and '?' otherwise. */
  function Sanitize(name: Name): (r: Name)
    ensures |r| == |name|
    ensures forall k :: 0 <= k < |r| ==> IsPrint(r[k])
    ensures forall k :: 0 <= k < |r| ==> (r[k] == name[k] <==> IsPrint(name[k]))
    ensures forall k :: 0 <= k < |r| && !IsPrint(name[k]) ==> r[k] == QUESTION
  {
    seq(|name|, k requires 0 <= k < |name| => if IsPrint(name[k]) then name[k] else QUESTION)
  }

  /** A sanitised name is left alone by a second pass. */
  lemma SanitizeIdempotent(name: Name)
    ensures Sanitize(Sanitize(name)) == Sanitize(name)
  {
    var once := Sanitize(name);
    assert forall k :: 0 <= k < |once| ==> Sanitize(once)[k] == once[k];
  }

  /** A name made only of printable bytes is written unchanged. */
  lemma SanitizePrintable(name: Name)
    requires forall k :: 0 <= k < |name| ==> IsPrint(name[k])
    ensures Sanitize(name) == name
  {
    assert forall k :: 0 <= k < |name| ==> Sanitize(name)[k] == name[k];
  }

  /** print_filename_sanitized: walks the name byte by byte, emitting each
      byte or '?'. */
  method PrintFilenameSanitized(name: Name) returns (out: seq<byte>)
    ensures out == Sanitize(name)
  {
    out := [];
    var i := 0;
    while i < |name|
      invariant 0 <= i <= |name|
      invariant out == Sanitize(name)[..i]
    {
      if IsPrint(name[i]) {
        out := out + [name[i]];
      } else {
        out := out + [QUESTION];
      }
      i := i + 1;
    }
  }

  /** The name as the grid and the long format write it: sanitised under
      -q, as is otherwise. */
  function ShownName(name: Name, o: Options): (r: Name)
    ensures |r| == |name|
    ensures o.printableOnly ==> forall k :: 0 <= k < |r| ==> IsPrint(r[k])
    ensures !o.printableOnly ==> r == name
  {
    if o.printableOnly then Sanitize(name) else name
  }

  /** print_suffix (-F): at most one indicator, by first match on the file
      type.  The whiteout case exists only on systems that define S_ISWHT,
      which the whiteouts parameter says. */
  function Suffix(mode: bv32, whiteouts: bool): Option<byte> {
    if IsDir(mode) then Some(SLASH)
    else if IsLink(mode) then Some(AT)
    else if whiteouts && IsWhiteout(mode) then Some(PERCENT)
    else if IsSock(mode) then Some(EQUALS)
    else if IsFifo(mode) then Some(PIPE)
    else if IsReg(mode) && AnyExec(mode) then Some(STAR)
    else None
  }

  /** Each indicator stands for exactly its file type, the types being
      disjoint; '*' only for an executable regular file; no suffix for
      anything else. */
  lemma SuffixIndicates(mode: bv32, whiteouts: bool)
    ensures var r := Suffix(mode, whiteouts);
      && (r == Some(SLASH) <==> IsDir(mode))
      && (r == Some(AT) <==> IsLink(mode))
      && (r == Some(PERCENT) <==> whiteouts && IsWhiteout(mode))
      && (r == Some(EQUALS) <==> IsSock(mode))
      && (r == Some(PIPE) <==> IsFifo(mode))
      && (r == Some(STAR) <==> IsReg(mode) && AnyExec(mode))
      && (r == None <==>
        !IsDir(mode) && !IsLink(mode) && !(whiteouts && IsWhiteout(mode)) &&
        !IsSock(mode) && !IsFifo(mode) && !(IsReg(mode) && AnyExec(mode)))
  {}

  /** How an owner or group column is filled: by the name getpwuid or
      getgrgid finds for the id (the number when the lookup fails), or by
      the number itself. */
  datatype IdShown = LookedUp(id: nat) | Numeric(id: nat)

  /** Owner and group names are looked up only under -l without -n. */
  function IdColumn(id: nat, o: Options): (r: IdShown)
    ensures r.id == id
    ensures r.LookedUp? <==> o.longFormat && !o.numericIds
  {
    if o.longFormat && !o.numericIds then LookedUp(id) else Numeric(id)
  }

  /** The timestamp of a long line: atime under -u, else ctime under -c,
      else mtime. */
  function ShownTime(sb: Stat, o: Options): (t: int)
    ensures o.useAtime ==> t == sb.atime
    ensures !o.useAtime && o.useCtime ==> t == sb.ctime
    ensures !o.useAtime && !o.useCtime ==> t == sb.mtime
  {
    if o.useAtime then sb.atime else if o.useCtime then sb.ctime else sb.mtime
  }

  /** Under -t the time a long line shows is the time the listing was
      sorted by, since both prefer atime, then ctime, then mtime. */
  lemma ShownTimeIsSortTime(sb: Stat, o: Options)
    requires o.sortTime
    ensures KeyValue(ChooseKey(o), sb) == ShownTime(sb, o)
  {}

  /** The fields print_long_format writes, in order.  readlinkPath is the
      path handed to readlink(2) for a symbolic link; the mode string,
      the owner and group names, the clock text and the link target
      itself come from library calls outside the model. */
  datatype LongLine = LongLine(
    inode: Option<nat>,
    blocks: Option<SizeShown>,
    mode: bv32,
    nlink: nat,
    owner: IdShown,
    group: IdShown,
    size: SizeShown,
    time: int,
    name: Name,
    readlinkPath: Option<Path>,
    suffix: Option<byte>)

  /** print_long_format for an entry shown as name, whose link target is
      read from linkPath. */
  function LongLineOf(name: Name, linkPath: Path, sb: Stat, o: Options, whiteouts: bool): (l: LongLine)
    ensures l.inode.Some? <==> o.inode
    ensures l.inode.Some? ==> l.inode.value == sb.ino
    ensures l.blocks.Some? <==> o.blocks
    ensures l.blocks.Some? ==> l.blocks.value == SizeColumn(sb, o)
    ensures l.mode == sb.mode && l.nlink == sb.nlink
    ensures l.owner.id == sb.uid && l.group.id == sb.gid
    ensures l.owner.LookedUp? <==> o.longFormat && !o.numericIds
    ensures l.group.LookedUp? <==> o.longFormat && !o.numericIds
    ensures l.size == LongSize(sb, o)
    ensures l.time == ShownTime(sb, o)
    ensures l.name == ShownName(name, o)
    ensures l.readlinkPath.Some? <==> IsLink(sb.mode)
    ensures l.readlinkPath.Some? ==> l.readlinkPath.value == linkPath
    ensures l.suffix.Some? ==> o.classify
    ensures o.classify ==> l.suffix == Suffix(sb.mode, whiteouts)
  {
    LongLine(
      if o.inode then Some(sb.ino) else None,
      if o.blocks then Some(SizeColumn(sb, o)) else None,
      sb.mode,
      sb.nlink,
      IdColumn(sb.uid, o),
      IdColumn(sb.gid, o),
      LongSize(sb, o),
      ShownTime(sb, o),
      ShownName(name, o),
      if IsLink(sb.mode) then Some(linkPath) else None,
      if o.classify then Suffix(sb.mode, whiteouts) else None)
  }

  /** One cell of print_columns: inode (-i), size column (-s), the name and
      the -F suffix. */
  datatype Cell = Cell(inode: Option<nat>, blocks: Option<SizeShown>, name: Name, suffix: Option<byte>)

  function CellOf(e: FileEntry, o: Options, whiteouts: bool): Cell {
    Cell(
      if o.inode then Some(e.sb.ino) else None,
      if o.blocks then Some(SizeColumn(e.sb, o)) else None,
      ShownName(e.name, o),
      if o.classify then Suffix(e.sb.mode, whiteouts) else None)
  }

  /** A cell shows the inode only under -i, the size column only under -s
      and a suffix only under -F, and the name as -q decides. */
  lemma CellFields(e: FileEntry, o: Options, whiteouts: bool)
    ensures var c := CellOf(e, o, whiteouts);
      && (c.inode.Some? <==> o.inode)
      && (c.inode.Some? ==> c.inode.value == e.sb.ino)
      && (c.blocks.Some? <==> o.blocks)
      && (c.blocks.Some? ==> c.blocks.value == SizeColumn(e.sb, o))
      && c.name == ShownName(e.name, o)
      && |c.name| == |e.name|
      && (c.suffix.Some? ==> o.classify)
      && (o.classify ==> c.suffix == Suffix(e.sb.mode, whiteouts))
  {}

  /** A grid cell reads the entry's metadata only under -i, -s or -F. */
  lemma CellIgnoresMetadata(e: FileEntry, sb: Stat, o: Options, whiteouts: bool)
    requires !o.inode && !o.blocks && !o.classify
    ensures CellOf(e, o, whiteouts) == CellOf(FileEntry(e.name, sb), o, whiteouts)
  {}

  /** get_terminal_width: the column count the terminal reports, or 80
      when the ioctl fails or reports 0. */
  function TerminalWidth(reported: Option<nat>): (w: nat)
    ensures w > 0
    ensures reported.Some? && reported.value > 0 ==> w == reported.value
    ensures reported.None? || reported.value == 0 ==> w == 80
  {
    if reported.Some? && reported.value > 0 then reported.value else 80
  }

  /** What the program writes, one event per call that writes, in order.
      Diagnostics of warn(3) go to standard error and are kept in the same
      sequence. */
  datatype Event =
    | Warning(path: Path)
    | Usage
    | Header(path: Path)
    | Blank
    | TotalShown(total: Total)
    | Long(line: LongLine)
    | Simple(path: Path)
    | Item(cell: Cell)
    | Space
    | Newline

  /** The outcome of a run: what was written, and whether err(3) or usage()
      ended the process. */
  datatype Run = Run(events: seq<Event>, exited: bool)

  /** Running b after a: nothing more happens once a has exited. */
  function Then(a: Run, b: Run): (r: Run)
    ensures a.exited ==> r == a
    ensures !a.exited ==> r.events == a.events + b.events && r.exited == b.exited
  {
    if a.exited then a else Run(a.events + b.events, b.exited)
  }

  lemma ThenAssociative(a: Run, b: Run, c: Run)
    ensures Then(Then(a, b), c) == Then(a, Then(b, c))
  {
    if !a.exited && !b.exited {
      assert (a.events + b.events) + c.events == a.events + (b.events + c.events);
    }
  }
}
