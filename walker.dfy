/** process_recursively (-R) and the operand dispatch of main, ls.c. */
module Walker {
  import opened LsTypes
  import opened Paths
  import opened Sorting
  import opened Printer
  import opened Flags
  import opened Listing

  /** readdir never yields an empty name. */
  predicate NamedEntries(fs: FileSystem) {
    forall p :: p in fs.dirs ==> forall k :: 0 <= k < |fs.dirs[p]| ==> fs.dirs[p][k] != []
  }

  /** The names process_recursively considers descending into: never "."
      or "..", and no other name beginning with '.' unless -a; -A plays no
      part. */
  predicate SubdirCandidate(name: Name, o: Options) {
    name != Dot && name != DotDot && (o.showAll || !Hidden(name))
  }

  /** The walk ignores -A. */
  lemma SubdirCandidateIgnoresAlmostAll(name: Name, o: Options, almost: bool)
    ensures SubdirCandidate(name, o) == SubdirCandidate(name, o.(showAlmostAll := almost))
  {}

  /** Every directory the walk may enter is also one that ls_directory
      lists, under -a, -A or neither. */
  lemma SubdirCandidateIsListed(name: Name, o: Options)
    requires SubdirCandidate(name, o)
    ensures Admitted(name, o)
  {}

  /** Under -A the walk is narrower than the listing: a hidden
      subdirectory is listed but not entered. */
  lemma HiddenListedNotEntered(name: Name, o: Options)
    requires !o.showAll && o.showAlmostAll && Hidden(name) && name != Dot && name != DotDot
    ensures Admitted(name, o) && !SubdirCandidate(name, o)
  {}

  /** The state of the subdirectory loop: the directories found, as full
      paths with their lstat, the paths lstat failed on, and whether err(3)
      ended the process. */
  datatype Subdirs = Subdirs(found: seq<FileEntry>, warnings: seq<Path>, exited: bool)

  /** One pass of the subdirectory loop: a candidate's joined path is
      lstat'ed; an over-long path exits, a failed lstat warns, a symbolic
      link or a non-directory is passed over. */
  function SubStep(fs: FileSystem, dir: Path, name: Name, o: Options, c: Subdirs): Subdirs {
    if !SubdirCandidate(name, o) then c
    else
      match JoinPath(dir, name)
      case TooLong => c.(exited := true)
      case Built(p) =>
        if p !in fs.lstat then c.(warnings := c.warnings + [p])
        else if IsLink(fs.lstat[p].mode) then c
        else if IsDir(fs.lstat[p].mode) then c.(found := c.found + [FileEntry(p, fs.lstat[p])])
        else c
  }

  function CollectSubdirs(fs: FileSystem, dir: Path, names: seq<Name>, o: Options): Subdirs
    decreases |names|
  {
    if names == [] then Subdirs([], [], false)
    else
      var prev := CollectSubdirs(fs, dir, names[..|names| - 1], o);
      if prev.exited then prev else SubStep(fs, dir, names[|names| - 1], o, prev)
  }

  /** A name whose joined path lstat describes as a directory, not a link. */
  predicate IsSubdir(fs: FileSystem, dir: Path, o: Options, name: Name) {
    SubdirCandidate(name, o) && JoinPath(dir, name).Built? && JoinPath(dir, name).path in fs.lstat &&
    !IsLink(fs.lstat[JoinPath(dir, name).path].mode) && IsDir(fs.lstat[JoinPath(dir, name).path].mode)
  }

  /** A reference for the directories found: the joined paths of the
      subdirectory names, in readdir order. */
  function SubdirPaths(fs: FileSystem, dir: Path, o: Options, names: seq<Name>): seq<Path> {
    if names == [] then []
    else
      var head := if IsSubdir(fs, dir, o, names[0]) then [JoinPath(dir, names[0]).path] else [];
      head + SubdirPaths(fs, dir, o, names[1..])
  }

  /** What an entry of the found list is: a directory (so never a
      symbolic link) at a path longer than its parent's and shorter than
      PATH_MAX, carrying its own lstat. */
  predicate FoundDir(fs: FileSystem, dir: Path, e: FileEntry) {
    |dir| < |e.name| < PATH_MAX && e.name in fs.lstat && e.sb == fs.lstat[e.name] &&
    IsDir(e.sb.mode) && !IsLink(e.sb.mode)
  }

  predicate SubTooLong(dir: Path, o: Options, names: seq<Name>) {
    exists k :: 0 <= k < |names| && SubdirCandidate(names[k], o) && JoinPath(dir, names[k]).TooLong?
  }

  lemma {:induction false} SubdirPathsSnoc(fs: FileSystem, dir: Path, o: Options, names: seq<Name>, x: Name)
    ensures SubdirPaths(fs, dir, o, names + [x]) ==
      SubdirPaths(fs, dir, o, names) + if IsSubdir(fs, dir, o, x) then [JoinPath(dir, x).path] else []
    decreases |names|
  {
    if names == [] {
      assert [x][1..] == [];
    } else {
      assert (names + [x])[1..] == names[1..] + [x];
      SubdirPathsSnoc(fs, dir, o, names[1..], x);
    }
  }

  /** What the subdirectory loop computes: it exits exactly when a
      candidate is too long to join; otherwise it finds the subdirectory
      paths in readdir order, and every one is a directory, not a link. */
  lemma {:induction false} CollectSubdirsMeaning(fs: FileSystem, dir: Path, names: seq<Name>, o: Options)
    requires forall k :: 0 <= k < |names| ==> names[k] != []
    ensures var c := CollectSubdirs(fs, dir, names, o);
      && (c.exited <==> SubTooLong(dir, o, names))
      && (!c.exited ==> Names(c.found) == SubdirPaths(fs, dir, o, names))
      && forall k :: 0 <= k < |c.found| ==> FoundDir(fs, dir, c.found[k])
    decreases |names|
  {
    var c := CollectSubdirs(fs, dir, names, o);
    if names != [] {
      var init, x := names[..|names| - 1], names[|names| - 1];
      assert names == init + [x];
      assert forall k :: 0 <= k < |init| ==> init[k] == names[k];
      CollectSubdirsMeaning(fs, dir, init, o);
      var prev := CollectSubdirs(fs, dir, init, o);
      SubdirPathsSnoc(fs, dir, o, init, x);
      if prev.exited {
        assert SubTooLong(dir, o, names) by {
          var k :| 0 <= k < |init| && SubdirCandidate(init[k], o) && JoinPath(dir, init[k]).TooLong?;
          assert names[k] == init[k];
        }
      } else {
        SubStepMeaning(fs, dir, x, o, prev);
        if c.exited {
          assert names[|names| - 1] == x;
        } else {
          assert !SubTooLong(dir, o, names) by {
            forall k | 0 <= k < |names| && SubdirCandidate(names[k], o)
              ensures JoinPath(dir, names[k]).Built?
            {
              if k < |init| {
                assert names[k] == init[k];
              }
            }
          }
        }
      }
    }
  }

  lemma SubStepMeaning(fs: FileSystem, dir: Path, x: Name, o: Options, c: Subdirs)
    requires x != [] && !c.exited
    requires forall k :: 0 <= k < |c.found| ==> FoundDir(fs, dir, c.found[k])
    ensures var d := SubStep(fs, dir, x, o, c);
      && (d.exited <==> SubdirCandidate(x, o) && JoinPath(dir, x).TooLong?)
      && (!d.exited ==> Names(d.found) == Names(c.found) + if IsSubdir(fs, dir, o, x) then [JoinPath(dir, x).path] else [])
      && forall k :: 0 <= k < |d.found| ==> FoundDir(fs, dir, d.found[k])
  {
    var d := SubStep(fs, dir, x, o, c);
    if IsSubdir(fs, dir, o, x) {
      var p := JoinPath(dir, x).path;
      var e := FileEntry(p, fs.lstat[p]);
      assert d.found == c.found + [e];
      NamesSnoc(c.found, e);
    }
  }

  /** Distinct names give distinct full paths. */
  lemma {:induction false} SubdirPathsDistinct(fs: FileSystem, dir: Path, o: Options, names: seq<Name>)
    requires NoDuplicates(names)
    ensures NoDuplicates(SubdirPaths(fs, dir, o, names))
    ensures forall p :: p in SubdirPaths(fs, dir, o, names) ==>
      exists k :: 0 <= k < |names| && IsSubdir(fs, dir, o, names[k]) && JoinPath(dir, names[k]).path == p
    decreases |names|
  {
    if names != [] {
      var t := names[1..];
      assert NoDuplicates(t) by {
        forall i, j | 0 <= i < j < |t| ensures t[i] != t[j] {
          assert t[i] == names[i + 1] && t[j] == names[j + 1];
        }
      }
      SubdirPathsDistinct(fs, dir, o, t);
      var rest := SubdirPaths(fs, dir, o, t);
      forall p | p in rest
        ensures exists k :: 0 <= k < |names| && IsSubdir(fs, dir, o, names[k]) && JoinPath(dir, names[k]).path == p
      {
        var k :| 0 <= k < |t| && IsSubdir(fs, dir, o, t[k]) && JoinPath(dir, t[k]).path == p;
        assert names[k + 1] == t[k];
      }
      if IsSubdir(fs, dir, o, names[0]) {
        var h := JoinPath(dir, names[0]).path;
        assert h !in rest by {
          forall k | 0 <= k < |t| && IsSubdir(fs, dir, o, t[k]) ensures JoinPath(dir, t[k]).path != h {
            JoinPathInjective(dir, names[0], t[k]);
            assert t[k] == names[k + 1];
          }
        }
        var all := [h] + rest;
        assert SubdirPaths(fs, dir, o, names) == all;
        forall i, j | 0 <= i < j < |all| ensures all[i] != all[j] {
          if i == 0 {
            assert all[j] == rest[j - 1];
          } else {
            assert all[i] == rest[i - 1] && all[j] == rest[j - 1];
          }
        }
      } else {
        assert SubdirPaths(fs, dir, o, names) == rest;
      }
    }
  }

  /** The directories found have distinct paths. */
  lemma SubdirsDistinct(fs: FileSystem, dir: Path, names: seq<Name>, o: Options)
    requires NoDuplicates(names) && forall k :: 0 <= k < |names| ==> names[k] != []
    requires !CollectSubdirs(fs, dir, names, o).exited
    ensures DistinctNames(CollectSubdirs(fs, dir, names, o).found)
  {
    CollectSubdirsMeaning(fs, dir, names, o);
    SubdirPathsDistinct(fs, dir, o, names);
    DistinctNamesFromNames(CollectSubdirs(fs, dir, names, o).found);
  }

  /** Sorting keeps what each found entry is. */
  lemma SortedSubdirs(fs: FileSystem, dir: Path, names: seq<Name>, o: Options)
    requires forall k :: 0 <= k < |names| ==> names[k] != []
    ensures forall k :: 0 <= k < |SortOrder(CollectSubdirs(fs, dir, names, o).found, o)| ==>
      FoundDir(fs, dir, SortOrder(CollectSubdirs(fs, dir, names, o).found, o)[k])
  {
    var s := CollectSubdirs(fs, dir, names, o).found;
    var t := SortOrder(s, o);
    CollectSubdirsMeaning(fs, dir, names, o);
    SortOrderPermutation(s, o);
    forall k | 0 <= k < |t| ensures FoundDir(fs, dir, t[k]) {
      assert t[k] in multiset(s);
      var j :| 0 <= j < |s| && s[j] == t[k];
    }
  }

  /** How far a path is from PATH_MAX; every directory entered is closer. */
  function Room(p: Path): nat {
    if |p| < PATH_MAX then PATH_MAX - |p| else 0
  }

  /** process_recursively: the header under print_name, the listing of
      ls_directory, then (reopening the directory) the warnings of the
      subdirectory loop and, for each directory found in sort_entries
      order, an empty line and its own walk.  It terminates because each
      directory entered has a longer path and build_path refuses paths of
      PATH_MAX bytes or more. */
  function Walk(fs: FileSystem, path: Path, o: Options, env: Env, printName: bool): Run
    requires NamedEntries(fs)
    decreases Room(path), 2
  {
    var before := Then(Run(if printName then [Header(path)] else [], false), ListDirectory(fs, path, o, env));
    if path !in fs.dirs then Then(before, Run([Warning(path)], false))
    else Then(before, Descend(fs, path, o, env))
  }

  /** The second pass over an opened directory: the warnings of the
      subdirectory loop, then a walk of each directory found, in
      sort_entries order, each after an empty line. */
  function Descend(fs: FileSystem, path: Path, o: Options, env: Env): Run
    requires NamedEntries(fs) && path in fs.dirs
    decreases Room(path), 1
  {
    var c := CollectSubdirs(fs, path, fs.dirs[path], o);
    if c.exited then Run(Warnings(c.warnings), true)
    else
      SortedSubdirs(fs, path, fs.dirs[path], o);
      Then(Run(Warnings(c.warnings), false), WalkEach(fs, o, env, path, SortOrder(c.found, o), 0))
  }

  function WalkEach(fs: FileSystem, o: Options, env: Env, parent: Path, subs: seq<FileEntry>, i: nat): Run
    requires NamedEntries(fs)
    requires forall k :: 0 <= k < |subs| ==> FoundDir(fs, parent, subs[k])
    decreases Room(parent), 0, |subs| - i
  {
    if i >= |subs| then Run([], false)
    else
      assert FoundDir(fs, parent, subs[i]);
      Then(Then(Run([Blank], false), Walk(fs, subs[i].name, o, env, true)), WalkEach(fs, o, env, parent, subs, i + 1))
  }

  /** A walk writes the header only when asked, then the directory's own
      listing, before anything of its subdirectories. */
  lemma WalkStartsWithListing(fs: FileSystem, path: Path, o: Options, env: Env, printName: bool)
    requires NamedEntries(fs)
    ensures var w, l := Walk(fs, path, o, env, printName), ListDirectory(fs, path, o, env);
      var head := if printName then [Header(path)] else [];
      w.events[..|head| + |l.events|] == head + l.events && (l.exited ==> w == Run(head + l.events, true))
  {}

  /** A symbolic link, even to a directory, is never entered. */
  lemma LinksNotEntered(fs: FileSystem, path: Path, names: seq<Name>, o: Options, k: nat)
    requires forall j :: 0 <= j < |names| ==> names[j] != []
    requires k < |SortOrder(CollectSubdirs(fs, path, names, o).found, o)|
    ensures var e := SortOrder(CollectSubdirs(fs, path, names, o).found, o)[k];
      e.name in fs.lstat && !IsLink(fs.lstat[e.name].mode) && IsDir(fs.lstat[e.name].mode)
  {
    SortedSubdirs(fs, path, names, o);
  }

  /** main, for one operand: as a file under -d; a directory (by stat,
      following links) is listed, or walked under -R with a header when
      there are several operands; anything else is listed as a file. */
  function ListOperand(fs: FileSystem, arg: Path, o: Options, env: Env, several: bool): Run
    requires NamedEntries(fs)
  {
    if o.dirAsFile then ListFile(fs, arg, o, env)
    else if IsDirectory(fs, arg) then
      if o.recursive then Walk(fs, arg, o, env, several) else ListDirectory(fs, arg, o, env)
    else ListFile(fs, arg, o, env)
  }

  function ListEach(fs: FileSystem, args: seq<Path>, o: Options, env: Env, i: nat): Run
    requires NamedEntries(fs)
    decreases |args| - i
  {
    if i >= |args| then Run([], false)
    else Then(ListOperand(fs, args[i], o, env, |args| > 1), ListEach(fs, args, o, env, i + 1))
  }

  /** main after option parsing: without operands "." is taken as a
      directory without asking stat; otherwise each operand in turn. */
  function Dispatch(fs: FileSystem, args: seq<Path>, o: Options, env: Env): Run
    requires NamedEntries(fs)
  {
    if args == [] then
      if o.dirAsFile then ListFile(fs, Dot, o, env)
      else if o.recursive then Walk(fs, Dot, o, env, false)
      else ListDirectory(fs, Dot, o, env)
    else ListEach(fs, args, o, env, 0)
  }

  /** The whole program: usage and exit on an unknown option, otherwise
      the dispatch over the operands. */
  function Ls(fs: FileSystem, codes: seq<GetoptCode>, args: seq<Path>, env: Env): Run
    requires NamedEntries(fs)
  {
    match ParseFlags(env.stdoutIsTty, env.euidIsRoot, codes)
    case None => Run([Usage], true)
    case Some(o) => Dispatch(fs, args, o, env)
  }

  /** An unknown option writes the usage line and nothing else. */
  lemma UnknownOptionIsUsage(fs: FileSystem, codes: seq<GetoptCode>, args: seq<Path>, env: Env, i: nat)
    requires NamedEntries(fs)
    requires i < |codes| && Decoded(codes[i]).None?
    ensures Ls(fs, codes, args, env) == Run([Usage], true)
  {
    ParseFailureIsFinal(env.stdoutIsTty, env.euidIsRoot, codes, i + 1);
    assert codes[..|codes|] == codes;
    ParseFlagsSnoc(env.stdoutIsTty, env.euidIsRoot, codes, i);
  }

  /** Under -d no directory is opened and stat is never asked: the output
      depends on lstat alone. */
  lemma DirAsFileReadsLstatOnly(fs1: FileSystem, fs2: FileSystem, args: seq<Path>, o: Options, env: Env)
    requires NamedEntries(fs1) && NamedEntries(fs2)
    requires o.dirAsFile && fs1.lstat == fs2.lstat
    ensures Dispatch(fs1, args, o, env) == Dispatch(fs2, args, o, env)
  {
    EachAsFile(fs1, fs2, args, o, env, 0);
  }

  lemma {:induction false} EachAsFile(fs1: FileSystem, fs2: FileSystem, args: seq<Path>, o: Options, env: Env, i: nat)
    requires NamedEntries(fs1) && NamedEntries(fs2)
    requires o.dirAsFile && fs1.lstat == fs2.lstat
    ensures ListEach(fs1, args, o, env, i) == ListEach(fs2, args, o, env, i)
    decreases |args| - i
  {
    if i < |args| {
      EachAsFile(fs1, fs2, args, o, env, i + 1);
    }
  }

  /** Under -R a directory operand is headed by its name exactly when
      there are several operands. */
  lemma HeaderIffSeveral(fs: FileSystem, args: seq<Path>, o: Options, env: Env, i: nat)
    requires NamedEntries(fs)
    requires o.recursive && !o.dirAsFile && i < |args| && IsDirectory(fs, args[i])
    ensures var r := ListOperand(fs, args[i], o, env, |args| > 1);
      (|args| > 1 ==> r.events[0] == Header(args[i])) &&
      (|args| == 1 ==> forall k :: 0 <= k < |r.events| ==> r.events[k] == Header(args[i]) ==> k > 0)
  {
    var l := ListDirectory(fs, args[i], o, env);
    WalkStartsWithListing(fs, args[i], o, env, |args| > 1);
    if |args| == 1 && |l.events| > 0 {
      ListingHasNoHeader(fs, args[i], o, env);
    }
    if |args| == 1 {
      var r := Walk(fs, args[i], o, env, false);
      if |r.events| > 0 && |l.events| == 0 {
        NoListingThenWalk(fs, args[i], o, env);
      }
    }
  }

  lemma NoListingThenWalk(fs: FileSystem, path: Path, o: Options, env: Env)
    requires NamedEntries(fs)
    requires |ListDirectory(fs, path, o, env).events| == 0
    ensures var r := Walk(fs, path, o, env, false);
      |r.events| > 0 ==> r.events[0] != Header(path)
  {
    var r := Walk(fs, path, o, env, false);
    if path in fs.dirs {
      assert r == Then(ListDirectory(fs, path, o, env), Descend(fs, path, o, env));
      var c := CollectSubdirs(fs, path, fs.dirs[path], o);
      if !c.exited {
        SortedSubdirs(fs, path, fs.dirs[path], o);
        var rest := WalkEach(fs, o, env, path, SortOrder(c.found, o), 0);
        if c.warnings == [] && |rest.events| > 0 {
          assert rest.events[0] == Blank;
        }
      }
    }
  }

  /** ls_directory never writes a header line. */
  lemma ListingHasNoHeader(fs: FileSystem, path: Path, o: Options, env: Env)
    ensures forall k :: 0 <= k < |ListDirectory(fs, path, o, env).events| ==>
      !ListDirectory(fs, path, o, env).events[k].Header?
  {
    if path in fs.dirs {
      var c := Collect(fs, path, fs.dirs[path], o);
      if !c.exited {
        var shown := SortOrder(c.entries, o);
        if !(o.longFormat || o.numericIds) {
          DisplayCarriesNoWarnings(shown, o, env);
        }
      }
    }
  }

  /** The subdirectory loop of process_recursively, over a buffer that
      starts with room for 16 entries and doubles when full. */
  method ReadSubdirs(fs: FileSystem, dir: Path, o: Options)
    returns (subdirs: array<FileEntry>, count: nat, warnings: seq<Path>, exited: bool)
    requires dir in fs.dirs
    ensures fresh(subdirs) && count <= subdirs.Length && Doubling(subdirs.Length, 16)
    ensures var c := CollectSubdirs(fs, dir, fs.dirs[dir], o);
      subdirs[..count] == c.found && warnings == c.warnings && exited == c.exited
  {
    var names := fs.dirs[dir];
    var capacity := 16;
    subdirs := new FileEntry[capacity](_ => FileEntry([], Unfetched));
    count, warnings, exited := 0, [], false;
    var i := 0;
    while i < |names|
      invariant 0 <= i <= |names|
      invariant fresh(subdirs) && capacity == subdirs.Length && count <= capacity && Doubling(capacity, 16)
      invariant CollectSubdirs(fs, dir, names[..i], o) == Subdirs(subdirs[..count], warnings, false)
    {
      var name := names[i];
      assert names[..i + 1][..i] == names[..i];
      ghost var prev := CollectSubdirs(fs, dir, names[..i], o);
      assert CollectSubdirs(fs, dir, names[..i + 1], o) == SubStep(fs, dir, name, o, prev);
      if name == Dot || name == DotDot || (!o.showAll && Hidden(name)) {
        i := i + 1;
        continue;
      }
      var fullpath := BuildPath(dir, name);
      if fullpath.TooLong? {
        exited := true;
        SubdirsStayExited(fs, dir, names, i + 1, o);
        return;
      }
      var p := fullpath.path;
      if p !in fs.lstat {
        warnings := warnings + [p];
        i := i + 1;
        continue;
      }
      var sb := fs.lstat[p];
      if IsLink(sb.mode) {
        i := i + 1;
        continue;
      }
      if IsDir(sb.mode) {
        subdirs, capacity := Reserve(subdirs, count, FileEntry(p, sb), 16);
        assert subdirs[..count + 1] == prev.found + [FileEntry(p, sb)];
        count := count + 1;
      }
      i := i + 1;
    }
    assert names[..i] == names;
  }

  lemma {:induction false} SubdirsStayExited(fs: FileSystem, dir: Path, names: seq<Name>, i: nat, o: Options)
    requires i <= |names| && CollectSubdirs(fs, dir, names[..i], o).exited
    ensures CollectSubdirs(fs, dir, names, o) == CollectSubdirs(fs, dir, names[..i], o)
    decreases |names| - i
  {
    if i < |names| {
      assert names[..i + 1][..i] == names[..i];
      SubdirsStayExited(fs, dir, names, i + 1, o);
    } else {
      assert names[..i] == names;
    }
  }

  /** process_recursively: the header, ls_directory, then the descent
      into the subdirectories; the process ends at the first err(3). */
  method ProcessRecursively(fs: FileSystem, path: Path, o: Options, env: Env, printName: bool) returns (r: Run)
    requires NamedEntries(fs) && DistinctListings(fs)
    ensures r == Walk(fs, path, o, env, printName)
    decreases Room(path), 1
  {
    r := Run(if printName then [Header(path)] else [], false);
    var listing := LsDirectory(fs, path, o, env);
    r := Then(r, listing);
    if r.exited {
      return;
    }
    if path !in fs.dirs {
      r := Then(r, Run([Warning(path)], false));
      return;
    }
    var rest := DescendInto(fs, path, o, env);
    r := Then(r, rest);
  }

  /** The part of process_recursively after ls_directory: the
      subdirectory loop, sort_entries, then for each directory an empty
      line and its walk. */
  method DescendInto(fs: FileSystem, path: Path, o: Options, env: Env) returns (r: Run)
    requires NamedEntries(fs) && DistinctListings(fs) && path in fs.dirs
    ensures r == Descend(fs, path, o, env)
    decreases Room(path), 0
  {
    var subdirs, count, warnings, exited := ReadSubdirs(fs, path, o);
    if exited {
      return Run(Warnings(warnings), true);
    }
    SubdirsDistinct(fs, path, fs.dirs[path], o);
    SortEntries(subdirs, count, o);
    ghost var subs := subdirs[..count];
    SortedSubdirs(fs, path, fs.dirs[path], o);
    r := Run(Warnings(warnings), false);
    var i := 0;
    while i < count
      invariant 0 <= i <= count
      invariant subdirs[..count] == subs && !r.exited
      invariant Then(r, WalkEach(fs, o, env, path, subs, i)) == Descend(fs, path, o, env)
    {
      assert subdirs[i] == subs[i] && FoundDir(fs, path, subs[i]);
      var child := ProcessRecursively(fs, subdirs[i].name, o, env, true);
      ghost var rest := WalkEach(fs, o, env, path, subs, i + 1);
      ThenAssociative(Run([Blank], false), child, rest);
      ThenAssociative(r, Then(Run([Blank], false), child), rest);
      ThenAssociative(r, Run([Blank], false), child);
      r := Then(Then(r, Run([Blank], false)), child);
      if r.exited {
        return;
      }
      i := i + 1;
    }
    assert r.events + [] == r.events;
  }

  /** main for one operand. */
  method LsOperand(fs: FileSystem, arg: Path, o: Options, env: Env, several: bool) returns (r: Run)
    requires NamedEntries(fs) && DistinctListings(fs)
    ensures r == ListOperand(fs, arg, o, env, several)
  {
    if o.dirAsFile {
      r := ListFile(fs, arg, o, env);
    } else if IsDirectory(fs, arg) {
      if o.recursive {
        r := ProcessRecursively(fs, arg, o, env, several);
      } else {
        r := LsDirectory(fs, arg, o, env);
      }
    } else {
      r := ListFile(fs, arg, o, env);
    }
  }

  /** main: parse_options, then "." or each operand in turn. */
  method RunLs(fs: FileSystem, codes: seq<GetoptCode>, args: seq<Path>, env: Env) returns (r: Run)
    requires NamedEntries(fs) && DistinctListings(fs)
    ensures r == Ls(fs, codes, args, env)
  {
    var parsed := ParseOptions(codes, env.stdoutIsTty, env.euidIsRoot);
    if parsed.None? {
      return Run([Usage], true);
    }
    var o := parsed.value;
    if |args| == 0 {
      if o.dirAsFile {
        r := ListFile(fs, Dot, o, env);
      } else if o.recursive {
        r := ProcessRecursively(fs, Dot, o, env, false);
      } else {
        r := LsDirectory(fs, Dot, o, env);
      }
      return;
    }
    r := Run([], false);
    assert Then(r, ListEach(fs, args, o, env, 0)) == ListEach(fs, args, o, env, 0) by {
      assert [] + ListEach(fs, args, o, env, 0).events == ListEach(fs, args, o, env, 0).events;
    }
    var i := 0;
    while i < |args|
      invariant 0 <= i <= |args| && !r.exited
      invariant Then(r, ListEach(fs, args, o, env, i)) == Dispatch(fs, args, o, env)
    {
      var one := LsOperand(fs, args[i], o, env, |args| > 1);
      ThenAssociative(r, one, ListEach(fs, args, o, env, i + 1));
      r := Then(r, one);
      if r.exited {
        return;
      }
      i := i + 1;
    }
    assert r.events + [] == r.events;
  }
}
