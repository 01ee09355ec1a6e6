/** ls_directory and ls_file of ls.c: reading a directory, the "total"
    line, sorting, and the long or column display. */
module Listing {
  import opened LsTypes
  import opened Paths
  import opened Units
  import opened Sorting
  import opened Printer
  import opened Columns

  /** What the process finds around it: the width the terminal reports
      (None when the ioctl fails), whether the system has whiteouts, and
      what isatty(1) and geteuid() say. */
  datatype Env = Env(reportedWidth: Option<nat>, whiteouts: bool, stdoutIsTty: bool, euidIsRoot: bool)

  /** A name beginning with '.'. */
  predicate Hidden(name: Name) {
    |name| > 0 && name[0] == DOT
  }

  /** The readdir filter of ls_directory: everything under -a; under -A
      everything but "." and ".."; otherwise no name beginning with '.'. */
  function Admitted(name: Name, o: Options): (r: bool)
    ensures o.showAll ==> r
    ensures !o.showAll && o.showAlmostAll ==> (r <==> name != Dot && name != DotDot)
    ensures !o.showAll && !o.showAlmostAll ==> (r <==> !Hidden(name))
  {
    if o.showAll then true
    else if o.showAlmostAll && !(name == Dot || name == DotDot) then true
    else !Hidden(name)
  }

  /** The options under which ls_directory calls lstat for each entry. */
  predicate NeedsStat(o: Options) {
    o.longFormat || o.numericIds || o.blocks || o.classify || o.inode || o.sortTime || o.sortSize
  }

  /** The state of the readdir loop: the entries kept so far, the paths
      lstat failed on, the two running totals, and whether err(3) ended the
      process. */
  datatype Collected = Collected(entries: seq<FileEntry>, warnings: seq<Path>, blocks: nat, bytes: nat, exited: bool)

  const Start: Collected := Collected([], [], 0, 0, false)

  /** One pass of the readdir loop for the entry name.  Without the need
      for metadata the entry keeps an unfetched stat; otherwise the joined
      path is lstat'ed, an over-long path exits and a failed lstat drops
      the entry with a warning. */
  function Step(fs: FileSystem, dir: Path, name: Name, o: Options, c: Collected): Collected {
    if !Admitted(name, o) then c
    else if !NeedsStat(o) then c.(entries := c.entries + [FileEntry(name, Unfetched)])
    else
      match JoinPath(dir, name)
      case TooLong => c.(exited := true)
      case Built(p) =>
        if p !in fs.lstat then c.(warnings := c.warnings + [p])
        else
          var sb := fs.lstat[p];
          Collected(c.entries + [FileEntry(name, sb)], c.warnings, c.blocks + sb.blocks, c.bytes + sb.size, false)
  }

  /** The readdir loop over names, in order; nothing happens after an exit. */
  function Collect(fs: FileSystem, dir: Path, names: seq<Name>, o: Options): Collected
    decreases |names|
  {
    if names == [] then Start
    else
      var prev := Collect(fs, dir, names[..|names| - 1], o);
      if prev.exited then prev else Step(fs, dir, names[|names| - 1], o, prev)
  }

  /** The names whose entry is listed: admitted by the filter and, when
      metadata is needed, lstat'able at the joined path. */
  predicate Kept(fs: FileSystem, dir: Path, o: Options, name: Name) {
    Admitted(name, o) &&
    (!NeedsStat(o) || (JoinPath(dir, name).Built? && JoinPath(dir, name).path in fs.lstat))
  }

  /** A reference filter over the readdir order, front to back. */
  function KeptNames(fs: FileSystem, dir: Path, o: Options, names: seq<Name>): seq<Name> {
    if names == [] then []
    else (if Kept(fs, dir, o, names[0]) then [names[0]] else []) + KeptNames(fs, dir, o, names[1..])
  }

  /** Whether some admitted name makes build_path fail while metadata is
      needed, the one way the loop exits. */
  predicate SomeTooLong(dir: Path, o: Options, names: seq<Name>) {
    NeedsStat(o) && exists k :: 0 <= k < |names| && Admitted(names[k], o) && JoinPath(dir, names[k]).TooLong?
  }

  /** The 512-byte blocks and the bytes of the kept entries. */
  function BlocksOf(s: seq<FileEntry>): nat {
    if s == [] then 0 else BlocksOf(s[..|s| - 1]) + s[|s| - 1].sb.blocks
  }

  function BytesOf(s: seq<FileEntry>): nat {
    if s == [] then 0 else BytesOf(s[..|s| - 1]) + s[|s| - 1].sb.size
  }

  lemma {:induction false} KeptNamesSnoc(fs: FileSystem, dir: Path, o: Options, names: seq<Name>, x: Name)
    ensures KeptNames(fs, dir, o, names + [x]) ==
      KeptNames(fs, dir, o, names) + if Kept(fs, dir, o, x) then [x] else []
    decreases |names|
  {
    if names == [] {
      assert [x][1..] == [];
    } else {
      assert (names + [x])[1..] == names[1..] + [x];
      KeptNamesSnoc(fs, dir, o, names[1..], x);
    }
  }

  lemma NamesSnoc(s: seq<FileEntry>, e: FileEntry)
    ensures Names(s + [e]) == Names(s) + [e.name]
  {
    assert Names(s + [e]) == Names(s) + [e.name];
  }

  /** What the readdir loop computes, read off name by name: it exits
      exactly when some admitted name is too long to join while metadata
      is needed; otherwise the entries are the kept names in readdir order,
      each with the lstat of its joined path (or unfetched when no metadata
      is needed), the warnings are the paths lstat failed on, and the
      totals are the sums over the kept entries. */
  lemma {:induction false} CollectMeaning(fs: FileSystem, dir: Path, names: seq<Name>, o: Options)
    ensures var c := Collect(fs, dir, names, o);
      && (c.exited <==> SomeTooLong(dir, o, names))
      && (!c.exited ==> Names(c.entries) == KeptNames(fs, dir, o, names))
      && c.blocks == BlocksOf(c.entries) && c.bytes == BytesOf(c.entries)
      && (forall k :: 0 <= k < |c.entries| ==> EntryStat(fs, dir, o, c.entries[k]))
      && (!NeedsStat(o) ==> c.warnings == [] && c.blocks == 0 && c.bytes == 0)
    decreases |names|
  {
    var c := Collect(fs, dir, names, o);
    if names != [] {
      var init, x := names[..|names| - 1], names[|names| - 1];
      assert names == init + [x];
      CollectMeaning(fs, dir, init, o);
      var prev := Collect(fs, dir, init, o);
      KeptNamesSnoc(fs, dir, o, init, x);
      if prev.exited {
        assert SomeTooLong(dir, o, names) by {
          var k :| 0 <= k < |init| && Admitted(init[k], o) && JoinPath(dir, init[k]).TooLong?;
          assert names[k] == init[k];
        }
      } else {
        StepMeaning(fs, dir, x, o, prev);
        if c.exited {
          assert names[|names| - 1] == x;
        } else {
          assert !SomeTooLong(dir, o, names) by {
            forall k | 0 <= k < |names| && Admitted(names[k], o) && NeedsStat(o)
              ensures JoinPath(dir, names[k]).Built?
            {
              if k < |init| {
                assert names[k] == init[k];
              }
            }
          }
        }
      }
    }
  }

  /** The stat an entry carries: unfetched without the need for metadata,
      the lstat of its joined path otherwise. */
  predicate EntryStat(fs: FileSystem, dir: Path, o: Options, e: FileEntry) {
    if NeedsStat(o) then
      JoinPath(dir, e.name).Built? && JoinPath(dir, e.name).path in fs.lstat &&
      e.sb == fs.lstat[JoinPath(dir, e.name).path]
    else e.sb == Unfetched
  }

  /** One step keeps or drops one entry, as Kept says; it exits only on an
      over-long admitted name. */
  lemma StepMeaning(fs: FileSystem, dir: Path, x: Name, o: Options, c: Collected)
    requires !c.exited
    requires c.blocks == BlocksOf(c.entries) && c.bytes == BytesOf(c.entries)
    requires forall k :: 0 <= k < |c.entries| ==> EntryStat(fs, dir, o, c.entries[k])
    requires !NeedsStat(o) ==> c.warnings == [] && c.blocks == 0 && c.bytes == 0
    ensures var d := Step(fs, dir, x, o, c);
      && (d.exited <==> NeedsStat(o) && Admitted(x, o) && JoinPath(dir, x).TooLong?)
      && (!d.exited ==> Names(d.entries) == Names(c.entries) + if Kept(fs, dir, o, x) then [x] else [])
      && d.blocks == BlocksOf(d.entries) && d.bytes == BytesOf(d.entries)
      && (forall k :: 0 <= k < |d.entries| ==> EntryStat(fs, dir, o, d.entries[k]))
      && (!NeedsStat(o) ==> d.warnings == [] && d.blocks == 0 && d.bytes == 0)
  {
    var d := Step(fs, dir, x, o, c);
    if Admitted(x, o) && (!NeedsStat(o) || (JoinPath(dir, x).Built? && JoinPath(dir, x).path in fs.lstat)) {
      var e := d.entries[|d.entries| - 1];
      assert d.entries == c.entries + [e];
      assert d.entries[..|d.entries| - 1] == c.entries;
      NamesSnoc(c.entries, e);
      assert EntryStat(fs, dir, o, e);
      forall k | 0 <= k < |d.entries| ensures EntryStat(fs, dir, o, d.entries[k]) {
        if k < |c.entries| {
          assert d.entries[k] == c.entries[k];
        }
      }
    } else {
      assert d.entries == c.entries;
    }
  }

  /** Distinct readdir names give entries with distinct names. */
  lemma {:induction false} KeptNamesDistinct(fs: FileSystem, dir: Path, o: Options, names: seq<Name>)
    requires NoDuplicates(names)
    ensures NoDuplicates(KeptNames(fs, dir, o, names))
    ensures forall x :: x in KeptNames(fs, dir, o, names) ==> x in names && Kept(fs, dir, o, x)
    decreases |names|
  {
    if names != [] {
      var t := names[1..];
      assert NoDuplicates(t) by {
        forall i, j | 0 <= i < j < |t| ensures t[i] != t[j] {
          assert t[i] == names[i + 1] && t[j] == names[j + 1];
        }
      }
      KeptNamesDistinct(fs, dir, o, t);
      var rest := KeptNames(fs, dir, o, t);
      assert names[0] !in t by {
        forall j | 0 <= j < |t| ensures t[j] != names[0] {
          assert t[j] == names[j + 1];
        }
      }
      if Kept(fs, dir, o, names[0]) {
        assert KeptNames(fs, dir, o, names) == [names[0]] + rest;
        forall i, j | 0 <= i < j < |[names[0]] + rest| ensures ([names[0]] + rest)[i] != ([names[0]] + rest)[j] {
          if i == 0 {
            assert ([names[0]] + rest)[j] == rest[j - 1];
          } else {
            assert ([names[0]] + rest)[i] == rest[i - 1] && ([names[0]] + rest)[j] == rest[j - 1];
          }
        }
      } else {
        assert KeptNames(fs, dir, o, names) == rest;
      }
    }
  }

  lemma DistinctNamesFromNames(s: seq<FileEntry>)
    requires NoDuplicates(Names(s))
    ensures DistinctNames(s)
  {
    forall i, j | 0 <= i < j < |s| ensures s[i].name != s[j].name {
      assert Names(s)[i] == s[i].name && Names(s)[j] == s[j].name;
    }
  }

  /** A directory whose readdir never repeats a name yields entries with
      distinct names, so their sorted order is well defined. */
  lemma CollectDistinct(fs: FileSystem, dir: Path, names: seq<Name>, o: Options)
    requires NoDuplicates(names)
    requires !Collect(fs, dir, names, o).exited
    ensures DistinctNames(Collect(fs, dir, names, o).entries)
  {
    CollectMeaning(fs, dir, names, o);
    KeptNamesDistinct(fs, dir, o, names);
    DistinctNamesFromNames(Collect(fs, dir, names, o).entries);
  }

  /** Without -l, -n, -s, -F, -i, -t or -S nothing is lstat'ed: the loop
      depends on the names alone. */
  lemma {:induction false} CollectWithoutStat(fs1: FileSystem, fs2: FileSystem, dir: Path, names: seq<Name>, o: Options)
    requires !NeedsStat(o)
    ensures Collect(fs1, dir, names, o) == Collect(fs2, dir, names, o)
    decreases |names|
  {
    if names != [] {
      CollectWithoutStat(fs1, fs2, dir, names[..|names| - 1], o);
    }
  }

  /** The paths handed to warn(3), one event each. */
  function Warnings(ws: seq<Path>): (r: seq<Event>)
    ensures |r| == |ws| && forall k :: 0 <= k < |ws| ==> r[k] == Warning(ws[k])
  {
    seq(|ws|, k requires 0 <= k < |ws| => Warning(ws[k]))
  }

  function TotalEvents(t: Option<Total>): seq<Event> {
    if t.Some? then [TotalShown(t.value)] else []
  }

  /** The path print_long_format, as ls_directory calls it, hands to
      readlink(2): the bare entry name, which names a file relative to the
      working directory rather than to the directory listed. */
  function ReadlinkPathAsWritten(dir: Path, name: Name): Path {
    name
  }

  /** The path readlink(2) is evidently meant to read: the joined path that
      lstat described. */
  function ReadlinkPath(dir: Path, name: Name): Path {
    match JoinPath(dir, name)
    case Built(p) => p
    case TooLong => name
  }

  /** print_long_format over the entries in order, one line each, called
      with the bare entry name as ls_directory calls it: the name shown
      and the path readlink is asked about are both that name. */
  function LongEvents(dir: Path, s: seq<FileEntry>, o: Options, whiteouts: bool): (r: seq<Event>)
    ensures |r| == |s|
    ensures forall k :: 0 <= k < |s| ==> r[k].Long? && r[k].line.name == ShownName(s[k].name, o)
    ensures forall k :: 0 <= k < |s| ==> r[k].line.time == ShownTime(s[k].sb, o) && r[k].line.size == LongSize(s[k].sb, o)
    ensures forall k :: 0 <= k < |s| ==>
      (r[k].line.readlinkPath.Some? <==> IsLink(s[k].sb.mode)) &&
      (r[k].line.readlinkPath.Some? ==> r[k].line.readlinkPath.value == s[k].name)
  {
    seq(|s|, k requires 0 <= k < |s| =>
      Long(LongLineOf(s[k].name, ReadlinkPathAsWritten(dir, s[k].name), s[k].sb, o, whiteouts)))
  }

  /** The same lines with readlink asked about the joined path. */
  function LongEventsIntended(dir: Path, s: seq<FileEntry>, o: Options, whiteouts: bool): (r: seq<Event>)
    ensures |r| == |s|
  {
    seq(|s|, k requires 0 <= k < |s| =>
      Long(LongLineOf(s[k].name, ReadlinkPath(dir, s[k].name), s[k].sb, o, whiteouts)))
  }

  /** The two agree on every field but the readlink path. */
  lemma LongEventsIntendedDiffersOnlyInReadlink(dir: Path, s: seq<FileEntry>, o: Options, whiteouts: bool, k: nat)
    requires k < |s|
    ensures var a, b := LongEvents(dir, s, o, whiteouts)[k], LongEventsIntended(dir, s, o, whiteouts)[k];
      a.Long? && b.Long? && b.line == a.line.(readlinkPath := b.line.readlinkPath) &&
      (b.line.readlinkPath.Some? ==> b.line.readlinkPath == Some(ReadlinkPath(dir, s[k].name)))
  {}

  /** For every link listed from a non-empty directory path, the code as
      written hands readlink a path string other than the one lstat was
      given ("x" rather than "d/x"). This is a difference of strings: for
      "." or "./" both name the same file, but for any directory other than
      the working one the "-> target" part is read from the wrong file or
      lost. */
  lemma ReadlinkAsWrittenMissesLink(fs: FileSystem, dir: Path, s: seq<FileEntry>, o: Options, whiteouts: bool, k: nat)
    requires dir != [] && NeedsStat(o) && k < |s|
    requires EntryStat(fs, dir, o, s[k]) && IsLink(s[k].sb.mode)
    ensures var p := LongEvents(dir, s, o, whiteouts)[k].line.readlinkPath;
      p.Some? && p.value != JoinPath(dir, s[k].name).path
  {
    var q := JoinPath(dir, s[k].name).path;
    assert |q| >= |dir| + |s[k].name| > |s[k].name|;
  }

  /** With the joined path, readlink reads the very file whose lstat a
      long line shows. */
  lemma ReadlinkPathIsStatPath(fs: FileSystem, dir: Path, o: Options, e: FileEntry)
    requires NeedsStat(o) && EntryStat(fs, dir, o, e)
    ensures ReadlinkPath(dir, e.name) in fs.lstat && fs.lstat[ReadlinkPath(dir, e.name)] == e.sb
  {}

  /** The corrected long lines: each link line asks readlink about the
      file its own lstat came from. */
  lemma ReadlinkIntendedIsStatPath(fs: FileSystem, dir: Path, s: seq<FileEntry>, o: Options, whiteouts: bool, k: nat)
    requires NeedsStat(o) && k < |s| && EntryStat(fs, dir, o, s[k]) && IsLink(s[k].sb.mode)
    ensures var p := LongEventsIntended(dir, s, o, whiteouts)[k].line.readlinkPath;
      p.Some? && p.value in fs.lstat && fs.lstat[p.value] == s[k].sb
  {
    ReadlinkPathIsStatPath(fs, dir, o, s[k]);
  }

  /** The display of ls_directory: one long line per entry under -l or
      -n, the column grid otherwise. */
  function Display(dir: Path, s: seq<FileEntry>, o: Options, env: Env): seq<Event> {
    if o.longFormat || o.numericIds then LongEvents(dir, s, o, env.whiteouts)
    else GridOutput(s, o, env.whiteouts, TerminalWidth(env.reportedWidth))
  }

  /** ls_directory: a warning when the directory cannot be opened;
      otherwise the lstat warnings of the readdir loop, then (unless it
      exited) the total line and the sorted entries. */
  function ListDirectory(fs: FileSystem, path: Path, o: Options, env: Env): Run {
    if path !in fs.dirs then Run([Warning(path)], false)
    else
      var c := Collect(fs, path, fs.dirs[path], o);
      if c.exited then Run(Warnings(c.warnings), true)
      else
        Run(Warnings(c.warnings) + TotalEvents(TotalLine(o, c.blocks, c.bytes)) +
          Display(path, SortOrder(c.entries, o), o, env), false)
  }

  /** A directory that opendir refuses yields one warning and nothing else. */
  lemma ListUnopenable(fs: FileSystem, path: Path, o: Options, env: Env)
    requires path !in fs.dirs
    ensures ListDirectory(fs, path, o, env) == Run([Warning(path)], false)
  {}

  /** The run exits exactly when an admitted name is too long to join
      while metadata is needed; otherwise a total line is written exactly
      under -l, -n or -s, and it sums the blocks and bytes of the entries
      listed. */
  lemma ListDirectoryTotals(fs: FileSystem, path: Path, o: Options, env: Env)
    requires path in fs.dirs
    ensures var c := Collect(fs, path, fs.dirs[path], o);
      && (ListDirectory(fs, path, o, env).exited <==> SomeTooLong(path, o, fs.dirs[path]))
      && TotalLine(o, c.blocks, c.bytes) == TotalLine(o, BlocksOf(c.entries), BytesOf(c.entries))
      && (TotalLine(o, c.blocks, c.bytes).Some? <==> o.longFormat || o.numericIds || o.blocks)
  {
    CollectMeaning(fs, path, fs.dirs[path], o);
  }

  /** The entries listed are the kept names, each exactly once, in the
      order sort_entries chooses. */
  lemma ListDirectoryEntries(fs: FileSystem, path: Path, o: Options)
    requires path in fs.dirs && NoDuplicates(fs.dirs[path])
    requires !Collect(fs, path, fs.dirs[path], o).exited
    ensures var c := Collect(fs, path, fs.dirs[path], o);
      && multiset(Names(SortOrder(c.entries, o))) == multiset(KeptNames(fs, path, o, fs.dirs[path]))
      && DistinctNames(SortOrder(c.entries, o))
      && forall k :: 0 <= k < |SortOrder(c.entries, o)| ==> EntryStat(fs, path, o, SortOrder(c.entries, o)[k])
  {
    var c := Collect(fs, path, fs.dirs[path], o);
    var t := SortOrder(c.entries, o);
    CollectMeaning(fs, path, fs.dirs[path], o);
    CollectDistinct(fs, path, fs.dirs[path], o);
    SortOrderPermutation(c.entries, o);
    DistinctNamesOfPermutation(c.entries, t);
    NamesPermutation(c.entries, t);
    forall k | 0 <= k < |t| ensures EntryStat(fs, path, o, t[k]) {
      assert t[k] in multiset(c.entries);
      var j :| 0 <= j < |c.entries| && c.entries[j] == t[k];
    }
  }

  lemma {:induction false} NamesPermutation(s: seq<FileEntry>, t: seq<FileEntry>)
    requires multiset(s) == multiset(t)
    ensures multiset(Names(s)) == multiset(Names(t))
    decreases |s|
  {
    if s == [] {
      assert |multiset(t)| == 0;
    } else {
      var x := s[|s| - 1];
      var init := s[..|s| - 1];
      assert s == init + [x];
      assert x in multiset(t);
      var j :| 0 <= j < |t| && t[j] == x;
      var t' := t[..j] + t[j + 1..];
      RemoveAt(t, j);
      assert multiset(s) == multiset(init) + multiset{x};
      assert multiset(init) == multiset(s) - multiset{x};
      assert multiset(t') == multiset(t) - multiset{x};
      NamesPermutation(init, t');
      NamesSnoc(init, x);
      assert multiset(Names(s)) == multiset(Names(init)) + multiset{x.name};
    }
  }

  /** Taking out the j-th entry takes out one entry and one name. */
  lemma RemoveAt(t: seq<FileEntry>, j: nat)
    requires j < |t|
    ensures multiset(t) == multiset(t[..j] + t[j + 1..]) + multiset{t[j]}
    ensures multiset(Names(t)) == multiset(Names(t[..j] + t[j + 1..])) + multiset{t[j].name}
  {
    var a, b := t[..j], t[j + 1..];
    assert t == a + [t[j]] + b;
    NamesConcat(a + [t[j]], b);
    NamesConcat(a, [t[j]]);
    NamesConcat(a, b);
    assert Names([t[j]]) == [t[j].name];
  }

  lemma NamesConcat(a: seq<FileEntry>, b: seq<FileEntry>)
    ensures Names(a + b) == Names(a) + Names(b)
  {
    assert Names(a + b) == Names(a) + Names(b);
  }

  /** Without metadata flags the listing is the same whatever lstat would
      say: no warnings, no total line, no lstat call. */
  lemma ListWithoutStat(fs1: FileSystem, fs2: FileSystem, path: Path, o: Options, env: Env)
    requires !NeedsStat(o) && fs1.dirs == fs2.dirs && path in fs1.dirs
    ensures ListDirectory(fs1, path, o, env) == ListDirectory(fs2, path, o, env)
    ensures !ListDirectory(fs1, path, o, env).exited
    ensures forall k :: 0 <= k < |ListDirectory(fs1, path, o, env).events| ==>
      !ListDirectory(fs1, path, o, env).events[k].Warning? && !ListDirectory(fs1, path, o, env).events[k].TotalShown?
  {
    CollectWithoutStat(fs1, fs2, path, fs1.dirs[path], o);
    CollectMeaning(fs1, path, fs1.dirs[path], o);
    var c := Collect(fs1, path, fs1.dirs[path], o);
    assert Warnings(c.warnings) == [];
    assert TotalLine(o, c.blocks, c.bytes) == None;
    var shown := SortOrder(c.entries, o);
    assert !(o.longFormat || o.numericIds);
    DisplayCarriesNoWarnings(shown, o, env);
  }

  /** The column grid writes cells, spaces and newlines only. */
  lemma DisplayCarriesNoWarnings(s: seq<FileEntry>, o: Options, env: Env)
    ensures forall k :: 0 <= k < |GridOutput(s, o, env.whiteouts, TerminalWidth(env.reportedWidth))| ==>
      var ev := GridOutput(s, o, env.whiteouts, TerminalWidth(env.reportedWidth))[k];
      ev.Item? || ev.Space? || ev.Newline?
  {
    var width := TerminalWidth(env.reportedWidth);
    if |s| > 0 {
      var g := GeometryOf(s, width);
      RenderKinds(CellsOf(s, o, env.whiteouts), NameLengths(s), g, GridSlots(|s|, g, 0));
    }
  }

  lemma {:induction false} RenderKinds(cells: seq<Cell>, widths: seq<nat>, g: Geometry, slots: seq<Slot>)
    ensures forall k :: 0 <= k < |Render(cells, widths, g, slots)| ==>
      var ev := Render(cells, widths, g, slots)[k];
      ev.Item? || ev.Space? || ev.Newline?
  {
    if slots != [] {
      RenderKinds(cells, widths, g, slots[1..]);
      var head := SlotEvents(cells, widths, g, slots[0]);
      var rest := Render(cells, widths, g, slots[1..]);
      assert Render(cells, widths, g, slots) == head + rest;
      match slots[0]
      case EndRow =>
      case Show(i, padded) =>
        if i < |cells| && i < |widths| {
          var pad := Spaces(g.colWidth - widths[i]);
          assert forall k :: 0 <= k < |pad| ==> pad[k] == Space;
        }
    }
  }

  /** ls_file: a warning when lstat fails; otherwise one long line under
      -l or -n, whose link target is read from the operand itself, or the
      operand as given. */
  function ListFile(fs: FileSystem, path: Path, o: Options, env: Env): (r: Run)
    ensures !r.exited && |r.events| == 1
    ensures r.events[0].Warning? <==> path !in fs.lstat
    ensures r.events[0].Simple? <==> path in fs.lstat && !(o.longFormat || o.numericIds)
    ensures r.events[0].Simple? ==> r.events[0].path == path
    ensures r.events[0].Long? ==>
      r.events[0].line == LongLineOf(path, path, fs.lstat[path], o, env.whiteouts)
  {
    if path !in fs.lstat then Run([Warning(path)], false)
    else if o.longFormat || o.numericIds then
      Run([Long(LongLineOf(path, path, fs.lstat[path], o, env.whiteouts))], false)
    else Run([Simple(path)], false)
  }

  /** A plain listing of a file names it without reading its metadata. */
  lemma ListFileSimple(fs1: FileSystem, fs2: FileSystem, path: Path, o: Options, env: Env)
    requires !(o.longFormat || o.numericIds)
    requires path in fs1.lstat <==> path in fs2.lstat
    ensures ListFile(fs1, path, o, env) == ListFile(fs2, path, o, env)
  {}

  /** The capacities a buffer allocated with room for base entries passes
      through: base, doubled on each growth. */
  predicate Doubling(c: nat, base: nat)
    decreases c
  {
    c == base || (c > base && c % 2 == 0 && Doubling(c / 2, base))
  }

  /** realloc to twice the size, keeping the first count entries. */
  method Grow(files: array<FileEntry>, count: nat) returns (bigger: array<FileEntry>)
    requires count <= files.Length
    ensures fresh(bigger)
    ensures bigger.Length == 2 * files.Length
    ensures bigger[..count] == files[..count]
  {
    bigger := new FileEntry[2 * files.Length](_ => FileEntry([], Unfetched));
    var k := 0;
    while k < count
      invariant 0 <= k <= count
      invariant bigger[..k] == files[..k]
    {
      bigger[k] := files[k];
      k := k + 1;
    }
  }

  /** The growth check of a readdir loop and the store into slot count:
      the buffer doubles when full. */
  method Reserve(files: array<FileEntry>, count: nat, e: FileEntry, ghost base: nat)
    returns (out: array<FileEntry>, capacity: nat)
    requires base > 0 && count <= files.Length && Doubling(files.Length, base)
    modifies files
    ensures out == files || fresh(out)
    ensures capacity == out.Length && count < capacity && Doubling(capacity, base)
    ensures out[..count] == old(files[..count]) && out[count] == e
  {
    out := files;
    if count >= files.Length {
      out := Grow(files, count);
      assert out.Length / 2 == files.Length;
    }
    capacity := out.Length;
    out[count] := e;
  }

  /** The readdir loop of ls_directory over a buffer that starts with room
      for 64 entries and doubles when full, before the name is copied in
      (so even an entry that lstat then drops can double it). */
  method ReadEntries(fs: FileSystem, dir: Path, o: Options)
    returns (files: array<FileEntry>, count: nat, warnings: seq<Path>, blocks: nat, bytes: nat, exited: bool)
    requires dir in fs.dirs
    ensures fresh(files) && count <= files.Length && Doubling(files.Length, 64)
    ensures var c := Collect(fs, dir, fs.dirs[dir], o);
      files[..count] == c.entries && warnings == c.warnings &&
      blocks == c.blocks && bytes == c.bytes && exited == c.exited
  {
    var names := fs.dirs[dir];
    var capacity := 64;
    files := new FileEntry[capacity](_ => FileEntry([], Unfetched));
    count, warnings, blocks, bytes, exited := 0, [], 0, 0, false;
    var i := 0;
    while i < |names|
      invariant 0 <= i <= |names|
      invariant fresh(files) && capacity == files.Length && count <= capacity && Doubling(capacity, 64)
      invariant Collect(fs, dir, names[..i], o) == Collected(files[..count], warnings, blocks, bytes, false)
    {
      var name := names[i];
      assert names[..i + 1][..i] == names[..i];
      ghost var prev := Collect(fs, dir, names[..i], o);
      assert Collect(fs, dir, names[..i + 1], o) == Step(fs, dir, name, o, prev);
      if !Admitted(name, o) {
        i := i + 1;
        continue;
      }
      files, capacity := Reserve(files, count, FileEntry(name, Unfetched), 64);
      if NeedsStat(o) {
        var fullpath := BuildPath(dir, name);
        if fullpath.TooLong? {
          exited := true;
          CollectStaysExited(fs, dir, names, i + 1, o);
          return;
        }
        var p := fullpath.path;
        if p !in fs.lstat {
          warnings := warnings + [p];
          assert files[..count] == prev.entries;
          i := i + 1;
          continue;
        }
        var sb := fs.lstat[p];
        files[count] := FileEntry(name, sb);
        bytes := bytes + sb.size;
        blocks := blocks + sb.blocks;
      }
      assert files[..count + 1] == prev.entries + [files[count]];
      count := count + 1;
      i := i + 1;
    }
    assert names[..i] == names;
  }

  /** Once the loop has exited, later names change nothing. */
  lemma {:induction false} CollectStaysExited(fs: FileSystem, dir: Path, names: seq<Name>, i: nat, o: Options)
    requires i <= |names| && Collect(fs, dir, names[..i], o).exited
    ensures Collect(fs, dir, names, o) == Collect(fs, dir, names[..i], o)
    decreases |names| - i
  {
    if i < |names| {
      assert names[..i + 1][..i] == names[..i];
      CollectStaysExited(fs, dir, names, i + 1, o);
    } else {
      assert names[..i] == names;
    }
  }

  /** The display loop under -l or -n: print_long_format(files[i].name, ...)
      for entries[0..count), in order. */
  method PrintLong(files: array<FileEntry>, count: nat, dir: Path, o: Options, whiteouts: bool)
    returns (out: seq<Event>)
    requires count <= files.Length
    ensures out == LongEvents(dir, files[..count], o, whiteouts)
  {
    out := [];
    var i := 0;
    while i < count
      invariant 0 <= i <= count
      invariant |out| == i
      invariant forall k :: 0 <= k < i ==> out[k] == LongEvents(dir, files[..count], o, whiteouts)[k]
    {
      var e := files[i];
      out := out + [Long(LongLineOf(e.name, ReadlinkPathAsWritten(dir, e.name), e.sb, o, whiteouts))];
      i := i + 1;
    }
  }

  /** ls_directory: opendir, the readdir loop, the total line, sort_entries
      and the display. */
  method LsDirectory(fs: FileSystem, path: Path, o: Options, env: Env) returns (r: Run)
    requires DistinctListings(fs)
    ensures r == ListDirectory(fs, path, o, env)
  {
    if path !in fs.dirs {
      return Run([Warning(path)], false);
    }
    var files, count, warnings, blocks, bytes, exited := ReadEntries(fs, path, o);
    if exited {
      return Run(Warnings(warnings), true);
    }
    var head := Warnings(warnings) + TotalEvents(TotalLine(o, blocks, bytes));
    CollectDistinct(fs, path, fs.dirs[path], o);
    SortEntries(files, count, o);
    var shown;
    if o.longFormat || o.numericIds {
      shown := PrintLong(files, count, path, o, env.whiteouts);
    } else {
      shown := PrintColumns(files, count, o, env.whiteouts, TerminalWidth(env.reportedWidth));
    }
    r := Run(head + shown, false);
  }
}
