/** parse_options of ls.c: the fold of getopt's results over struct options. */
module Flags {
  import opened LsTypes

  /** What one call of getopt(argc, argv, "-AacdFfhiklnqRrSstuw") returns
      before -1: code 1 for a non-option argument (the leading '-' of the
      option string asks for that), otherwise a character ('?' for a letter
      outside the option string). */
  datatype GetoptCode = NonOption | Letter(c: char)

  /** The letters of the option string, without its leading '-'. */
  const OptionString: seq<char> := "AacdFfhiklnqRrSstuw"

  /** The nineteen cases of the switch, one per option letter. */
  datatype Flag =
    | AllEntries      // -a
    | AlmostAll       // -A
    | Long            // -l
    | NumericIds      // -n
    | Classify        // -F
    | Recursive       // -R
    | ReverseOrder    // -r
    | NoSort          // -f
    | SizeSort        // -S
    | TimeSort        // -t
    | AccessTime      // -u
    | ChangeTime      // -c
    | Human           // -h
    | Kilo            // -k
    | InodeColumn     // -i
    | BlocksColumn    // -s
    | DirectoryItself // -d
    | Printable       // -q
    | Raw             // -w

  function LetterOf(f: Flag): char {
    match f
    case AllEntries => 'a'
    case AlmostAll => 'A'
    case Long => 'l'
    case NumericIds => 'n'
    case Classify => 'F'
    case Recursive => 'R'
    case ReverseOrder => 'r'
    case NoSort => 'f'
    case SizeSort => 'S'
    case TimeSort => 't'
    case AccessTime => 'u'
    case ChangeTime => 'c'
    case Human => 'h'
    case Kilo => 'k'
    case InodeColumn => 'i'
    case BlocksColumn => 's'
    case DirectoryItself => 'd'
    case Printable => 'q'
    case Raw => 'w'
  }

  /** Which case of the switch a character selects; None is the default
      case. */
  function FlagOf(c: char): (r: Option<Flag>)
    ensures r.Some? ==> LetterOf(r.value) == c
  {
    match c
    case 'a' => Some(AllEntries)
    case 'A' => Some(AlmostAll)
    case 'l' => Some(Long)
    case 'n' => Some(NumericIds)
    case 'F' => Some(Classify)
    case 'R' => Some(Recursive)
    case 'r' => Some(ReverseOrder)
    case 'f' => Some(NoSort)
    case 'S' => Some(SizeSort)
    case 't' => Some(TimeSort)
    case 'u' => Some(AccessTime)
    case 'c' => Some(ChangeTime)
    case 'h' => Some(Human)
    case 'k' => Some(Kilo)
    case 'i' => Some(InodeColumn)
    case 's' => Some(BlocksColumn)
    case 'd' => Some(DirectoryItself)
    case 'q' => Some(Printable)
    case 'w' => Some(Raw)
    case _ => None
  }

  /** Every case of the switch is reached by its own letter. */
  lemma FlagLetterRoundTrip(f: Flag)
    ensures FlagOf(LetterOf(f)) == Some(f)
  {
    match f
    case AllEntries =>
    case AlmostAll =>
    case Long =>
    case NumericIds =>
    case Classify =>
    case Recursive =>
    case ReverseOrder =>
    case NoSort =>
    case SizeSort =>
    case TimeSort =>
    case AccessTime =>
    case ChangeTime =>
    case Human =>
    case Kilo =>
    case InodeColumn =>
    case BlocksColumn =>
    case DirectoryItself =>
    case Printable =>
    case Raw =>
  }

  /** The letters that select a case are exactly those of the option
      string. */
  lemma OptionStringLetters(c: char)
    ensures c in OptionString <==> FlagOf(c).Some?
  {
    if c in OptionString {
      var k :| 0 <= k < |OptionString| && OptionString[k] == c;
      assert OptionString[k] == c;
    }
  }

  /** The result of one getopt call, decoded: the case it selects. */
  function Decoded(code: GetoptCode): Option<Flag> {
    match code
    case NonOption => None
    case Letter(c) => FlagOf(c)
  }

  /** The groups of cases that overwrite the same field: sort_size is
      written by -S, -t, -u and -c; sort_time by -S and -t; use_atime and
      use_ctime by -S, -u and -c; human_readable and kilobytes by -h and -k;
      printable_only by -q and -w. */
  datatype Group = SizeWriters | TimeWriters | StampWriters | UnitWriters | QuoteWriters

  predicate InGroup(f: Flag, g: Group) {
    match g
    case SizeWriters => f == SizeSort || f == TimeSort || f == AccessTime || f == ChangeTime
    case TimeWriters => f == SizeSort || f == TimeSort
    case StampWriters => f == SizeSort || f == AccessTime || f == ChangeTime
    case UnitWriters => f == Human || f == Kilo
    case QuoteWriters => f == Printable || f == Raw
  }

  /** The state before the getopt loop: every flag false, except that -q is
      on when standard output is a terminal and -A when the effective user
      is the superuser (both queries are inputs here). */
  function InitialOptions(stdoutIsTty: bool, euidIsRoot: bool): Options {
    Options(
      showAll := false, showAlmostAll := euidIsRoot, longFormat := false,
      numericIds := false, classify := false, recursive := false,
      reverse := false, unsorted := false, sortSize := false, sortTime := false,
      useAtime := false, useCtime := false, humanReadable := false,
      kilobytes := false, inode := false, blocks := false, dirAsFile := false,
      printableOnly := stdoutIsTty)
  }

  /** The pairs of flags that clear each other are never both set. */
  predicate Exclusive(o: Options) {
    && !(o.sortSize && o.sortTime)
    && !(o.useAtime && o.useCtime)
    && !(o.humanReadable && o.kilobytes)
  }

  /** A plain flag after case f: set by its own case, otherwise kept. */
  function Sets(prior: bool, f: Flag, own: Flag): bool {
    prior || f == own
  }

  /** A field that the cases of group g overwrite: after a case of the group
      it is on exactly when that case is the one that sets it; after any
      other case it is kept. */
  function Overwrite(prior: bool, f: Flag, g: Group, setter: Flag): bool {
    if InGroup(f, g) then f == setter else prior
  }

  /** What one case of the switch does, field by field. */
  function Effect(o: Options, f: Flag): (r: Options)
    ensures Exclusive(o) ==> Exclusive(r)
  {
    Options(
      showAll := Sets(o.showAll, f, AllEntries),
      showAlmostAll := Sets(o.showAlmostAll, f, AlmostAll),
      longFormat := Sets(o.longFormat, f, Long),
      numericIds := Sets(o.numericIds, f, NumericIds),
      classify := Sets(o.classify, f, Classify),
      recursive := Sets(o.recursive, f, Recursive),
      reverse := Sets(o.reverse, f, ReverseOrder),
      unsorted := Sets(o.unsorted, f, NoSort),
      sortSize := Overwrite(o.sortSize, f, SizeWriters, SizeSort),
      sortTime := Overwrite(o.sortTime, f, TimeWriters, TimeSort),
      useAtime := Overwrite(o.useAtime, f, StampWriters, AccessTime),
      useCtime := Overwrite(o.useCtime, f, StampWriters, ChangeTime),
      humanReadable := Overwrite(o.humanReadable, f, UnitWriters, Human),
      kilobytes := Overwrite(o.kilobytes, f, UnitWriters, Kilo),
      inode := Sets(o.inode, f, InodeColumn),
      blocks := Sets(o.blocks, f, BlocksColumn),
      dirAsFile := Sets(o.dirAsFile, f, DirectoryItself),
      printableOnly := Overwrite(o.printableOnly, f, QuoteWriters, Printable))
  }

  /** One getopt result applied; None is the usage failure (a non-option
      argument or the default case). */
  function ApplyFlag(o: Options, code: GetoptCode): (r: Option<Options>)
    ensures r.Some? <==> Decoded(code).Some?
    ensures r.Some? && Exclusive(o) ==> Exclusive(r.value)
  {
    match Decoded(code)
    case None => None
    case Some(f) => Some(Effect(o, f))
  }

  /** The options after the codes, or None once usage() is reached. */
  function ParseFlags(stdoutIsTty: bool, euidIsRoot: bool, codes: seq<GetoptCode>): Option<Options>
    decreases |codes|
  {
    if codes == [] then Some(InitialOptions(stdoutIsTty, euidIsRoot))
    else
      match ParseFlags(stdoutIsTty, euidIsRoot, codes[..|codes| - 1])
      case None => None
      case Some(o) => ApplyFlag(o, codes[|codes| - 1])
  }

  lemma {:induction false} ParseFlagsExclusive(tty: bool, root: bool, codes: seq<GetoptCode>)
    ensures ParseFlags(tty, root, codes).Some? ==> Exclusive(ParseFlags(tty, root, codes).value)
    decreases |codes|
  {
    if codes != [] {
      ParseFlagsExclusive(tty, root, codes[..|codes| - 1]);
    }
  }

  /** One more code: the fold takes one step. */
  lemma ParseFlagsSnoc(tty: bool, root: bool, codes: seq<GetoptCode>, i: nat)
    requires i < |codes|
    ensures ParseFlags(tty, root, codes[..i + 1]) ==
      if ParseFlags(tty, root, codes[..i]).Some? then ApplyFlag(ParseFlags(tty, root, codes[..i]).value, codes[i])
      else None
  {
    assert codes[..i + 1][..i] == codes[..i];
  }

  /** Once usage() is reached the rest of the arguments do not matter. */
  lemma {:induction false} ParseFailureIsFinal(tty: bool, root: bool, codes: seq<GetoptCode>, n: nat)
    requires n <= |codes|
    requires ParseFlags(tty, root, codes[..n]) == None
    ensures ParseFlags(tty, root, codes) == None
    decreases |codes| - n
  {
    if n < |codes| {
      assert codes[..n + 1][..n] == codes[..n];
      ParseFailureIsFinal(tty, root, codes, n + 1);
    } else {
      assert codes[..n] == codes;
    }
  }

  /** Whether some code selects case f. */
  predicate Has(codes: seq<GetoptCode>, f: Flag) {
    exists k :: 0 <= k < |codes| && Decoded(codes[k]) == Some(f)
  }

  /** The last case of group g among the codes, if any. */
  function LastOf(codes: seq<GetoptCode>, g: Group): Option<Flag>
    decreases |codes|
  {
    if codes == [] then None
    else
      var x := Decoded(codes[|codes| - 1]);
      if x.Some? && InGroup(x.value, g) then x
      else LastOf(codes[..|codes| - 1], g)
  }

  /** parse_options gets through the loop exactly when every code selects a
      case of the switch. */
  predicate AllKnown(codes: seq<GetoptCode>) {
    forall k :: 0 <= k < |codes| ==> Decoded(codes[k]).Some?
  }

  /** The options as a direct function of the command line: a plain flag is
      on when its letter occurs; in each group of cases that overwrite the
      same field the last letter of the group wins; -q/-w default to the
      terminal test, and -A is also on for the superuser. */
  function Expected(tty: bool, root: bool, codes: seq<GetoptCode>): Options {
    Options(
      showAll := Has(codes, AllEntries),
      showAlmostAll := root || Has(codes, AlmostAll),
      longFormat := Has(codes, Long),
      numericIds := Has(codes, NumericIds),
      classify := Has(codes, Classify),
      recursive := Has(codes, Recursive),
      reverse := Has(codes, ReverseOrder),
      unsorted := Has(codes, NoSort),
      sortSize := LastOf(codes, SizeWriters) == Some(SizeSort),
      sortTime := LastOf(codes, TimeWriters) == Some(TimeSort),
      useAtime := LastOf(codes, StampWriters) == Some(AccessTime),
      useCtime := LastOf(codes, StampWriters) == Some(ChangeTime),
      humanReadable := LastOf(codes, UnitWriters) == Some(Human),
      kilobytes := LastOf(codes, UnitWriters) == Some(Kilo),
      inode := Has(codes, InodeColumn),
      blocks := Has(codes, BlocksColumn),
      dirAsFile := Has(codes, DirectoryItself),
      printableOnly :=
        if LastOf(codes, QuoteWriters) == None then tty
        else LastOf(codes, QuoteWriters) == Some(Printable))
  }

  lemma HasSnoc(codes: seq<GetoptCode>, x: GetoptCode, f: Flag)
    ensures Has(codes + [x], f) <==> Has(codes, f) || Decoded(x) == Some(f)
  {
    var s := codes + [x];
    if Has(s, f) {
      var k :| 0 <= k < |s| && Decoded(s[k]) == Some(f);
      if k < |codes| {
        assert Decoded(codes[k]) == Some(f);
      }
    }
    if Has(codes, f) {
      var k :| 0 <= k < |codes| && Decoded(codes[k]) == Some(f);
      assert s[k] == codes[k];
    }
    if Decoded(x) == Some(f) {
      assert s[|codes|] == x;
    }
  }

  lemma LastOfSnoc(codes: seq<GetoptCode>, x: GetoptCode, g: Group)
    ensures LastOf(codes + [x], g) ==
      if Decoded(x).Some? && InGroup(Decoded(x).value, g) then Decoded(x) else LastOf(codes, g)
  {
    assert (codes + [x])[..|codes|] == codes;
  }

  /** One more decodable code moves Expected forward exactly as its case of
      the switch moves the options. */
  lemma ExpectedSnoc(tty: bool, root: bool, codes: seq<GetoptCode>, x: GetoptCode)
    requires Decoded(x).Some?
    ensures Effect(Expected(tty, root, codes), Decoded(x).value) == Expected(tty, root, codes + [x])
  {
    forall f ensures Has(codes + [x], f) <==> Has(codes, f) || Decoded(x) == Some(f) {
      HasSnoc(codes, x, f);
    }
    LastOfSnoc(codes, x, SizeWriters);
    LastOfSnoc(codes, x, TimeWriters);
    LastOfSnoc(codes, x, StampWriters);
    LastOfSnoc(codes, x, UnitWriters);
    LastOfSnoc(codes, x, QuoteWriters);
  }

  /** parse_options fails exactly when some code is not in the option
      string, and otherwise yields the Expected options. */
  lemma {:induction false} ParseFlagsCharacterized(tty: bool, root: bool, codes: seq<GetoptCode>)
    ensures ParseFlags(tty, root, codes) == if AllKnown(codes) then Some(Expected(tty, root, codes)) else None
    decreases |codes|
  {
    if codes == [] {
      assert forall f :: !Has(codes, f);
    } else {
      var init := codes[..|codes| - 1];
      var x := codes[|codes| - 1];
      assert codes == init + [x];
      ParseFlagsCharacterized(tty, root, init);
      assert AllKnown(codes) <==> AllKnown(init) && Decoded(x).Some?;
      if AllKnown(codes) {
        ExpectedSnoc(tty, root, init, x);
      }
    }
  }

  lemma {:induction false} LastOfIsPresent(codes: seq<GetoptCode>, g: Group)
    ensures LastOf(codes, g).Some? ==>
      InGroup(LastOf(codes, g).value, g) && Has(codes, LastOf(codes, g).value)
    decreases |codes|
  {
    if codes != [] {
      var init := codes[..|codes| - 1];
      var x := codes[|codes| - 1];
      LastOfIsPresent(init, g);
      assert codes == init + [x];
      if LastOf(codes, g).Some? {
        HasSnoc(init, x, LastOf(codes, g).value);
      }
    }
  }

  /** If -S is the last of -S, -t, -u and -c, it is also the last of the
      smaller groups it belongs to. */
  lemma {:induction false} LastSizeSortIsLastOfSubgroups(codes: seq<GetoptCode>)
    requires LastOf(codes, SizeWriters) == Some(SizeSort)
    ensures LastOf(codes, TimeWriters) == Some(SizeSort)
    ensures LastOf(codes, StampWriters) == Some(SizeSort)
    decreases |codes|
  {
    var x := Decoded(codes[|codes| - 1]);
    if !(x.Some? && InGroup(x.value, SizeWriters)) {
      LastSizeSortIsLastOfSubgroups(codes[..|codes| - 1]);
    }
  }

  /** Last-wins consequences: sorting by time needs -t, sorting by size
      needs -S, the access and change times need -u and -c, and -S given
      after every -t, -u and -c turns all of those off. */
  lemma SortFlagsNeedTheirLetters(tty: bool, root: bool, codes: seq<GetoptCode>)
    requires ParseFlags(tty, root, codes).Some?
    ensures ParseFlags(tty, root, codes).value.sortTime ==> Has(codes, TimeSort)
    ensures ParseFlags(tty, root, codes).value.sortSize ==> Has(codes, SizeSort)
    ensures ParseFlags(tty, root, codes).value.useAtime ==> Has(codes, AccessTime)
    ensures ParseFlags(tty, root, codes).value.useCtime ==> Has(codes, ChangeTime)
    ensures LastOf(codes, SizeWriters) == Some(SizeSort) ==>
      var o := ParseFlags(tty, root, codes).value;
      o.sortSize && !o.sortTime && !o.useAtime && !o.useCtime
  {
    ParseFlagsCharacterized(tty, root, codes);
    LastOfIsPresent(codes, SizeWriters);
    LastOfIsPresent(codes, TimeWriters);
    LastOfIsPresent(codes, StampWriters);
    if LastOf(codes, SizeWriters) == Some(SizeSort) {
      LastSizeSortIsLastOfSubgroups(codes);
    }
  }

  /** The first part of parse_options: every field cleared, then -q turned
      on for a terminal and -A for the superuser. */
  method DefaultOptions(stdoutIsTty: bool, euidIsRoot: bool) returns (opts: Options)
    ensures opts == InitialOptions(stdoutIsTty, euidIsRoot)
  {
    opts := Options(
      showAll := false, showAlmostAll := false, longFormat := false,
      numericIds := false, classify := false, recursive := false,
      reverse := false, unsorted := false, sortSize := false, sortTime := false,
      useAtime := false, useCtime := false, humanReadable := false,
      kilobytes := false, inode := false, blocks := false, dirAsFile := false,
      printableOnly := false);
    if stdoutIsTty {
      opts := opts.(printableOnly := true);
    }
    if euidIsRoot {
      opts := opts.(showAlmostAll := true);
    }
  }

  /** parse_options: the defaults, then the getopt loop; a non-option
      argument or a letter outside the option string ends in usage(). */
  method ParseOptions(codes: seq<GetoptCode>, stdoutIsTty: bool, euidIsRoot: bool) returns (r: Option<Options>)
    ensures r == ParseFlags(stdoutIsTty, euidIsRoot, codes)
  {
    var opts := DefaultOptions(stdoutIsTty, euidIsRoot);
    var i := 0;
    while i < |codes|
      invariant 0 <= i <= |codes|
      invariant ParseFlags(stdoutIsTty, euidIsRoot, codes[..i]) == Some(opts)
    {
      ParseFlagsSnoc(stdoutIsTty, euidIsRoot, codes, i);
      var f := Decoded(codes[i]);
      if f.None? {
        ParseFailureIsFinal(stdoutIsTty, euidIsRoot, codes, i + 1);
        return None;
      }
      opts := Effect(opts, f.value);
      i := i + 1;
    }
    assert codes[..|codes|] == codes;
    r := Some(opts);
  }
}
