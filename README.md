# A verified model of a small `ls`

This project models the core of a small BSD-style `ls` written in C, and
proves properties of that model. The core covers:

- the option parser;
- the directory collector of `ls_directory`;
- the recursive walker of `-R`;
- the dispatch of `main` over its operands;
- the comparators and the sort of `util.c`;
- `build_path`;
- the block arithmetic;
- the layout decisions of `print.c`: the sanitised name, the `-F` suffix, the
  fields of a long line, and the column-major grid of the short format.

How the model stands in for the program's surroundings:

- **The filesystem** is a value (`LsTypes.FileSystem`) with three maps keyed
  by the path strings the program hands to the system:
  - what `lstat` reports;
  - what `stat` (which follows links) reports;
  - for each directory `opendir` can open, the names `readdir` yields, in
    order.
- **Output** is a sequence of abstract events (`Printer.Event`) rather than
  `printf` text: a warning, the usage line, a header, an empty line, the
  total line, a long line, a simple name, a grid cell, a space, a newline.
- **A whole run** is `Printer.Run`: its events, plus whether `err(3)` or
  `usage()` ended the process.
- **The command line** is the sequence of getopt results (a letter, or code 1
  for a non-option argument) followed by the operands.
- **Process queries** are inputs (`Listing.Env`): the terminal width the
  ioctl reports, whether the system has whiteouts, `isatty(1)` and whether the
  effective user is root.

Modules, by source file:

| module | models |
|---|---|
| `LsTypes` (ls_types.dfy) | `struct options` and `struct file_entry` of ls.h, the mode bits, the abstract filesystem, `is_directory` |
| `Compare` (compare.dfy) | `compare_names`, `compare_size`, `compare_timem/a/c` of util.c, and the comparator choice |
| `Sorting` (sorting.dfy) | `reverse_entries` (in place on an array), `qsort` as a contract, `sort_entries` |
| `Paths` (paths.dfy) | `build_path`, filling an array with `strcpy`/`strcat` |
| `Units` (units.dfy) | `get_display_block_size`, the `-s` column, the long size field, the total line |
| `Flags` (flags.dfy) | `parse_options` as a fold over the getopt results, and the loop that computes it |
| `Printer` (printer.dfy) | `print_filename_sanitized`, `print_suffix`, the field choices of `print_long_format`, `get_terminal_width`, output events |
| `Columns` (columns.dfy) | `print_columns`: the grid geometry, its exact coverage, the padding rule, and the nested loops over the entry array |
| `Listing` (listing.dfy) | `ls_directory` (filter, lstat, growable buffer, totals, sort, display) and `ls_file` |
| `Walker` (walker.dfy) | `process_recursively`, `main`'s dispatch |

Each imperative part of the C code is a method:

- `ReverseEntries`, `BuildPath`, `ParseOptions`, `PrintFilenameSanitized` and
  `PrintColumns`;
- the readdir loops `ReadEntries` and `ReadSubdirs`, over arrays that start at
  64 and 16 slots and double when full;
- `LsDirectory`, `ProcessRecursively` and `RunLs`.

Each method is proved equal to a function that states what it computes. The
properties are lemmas about those functions.

`ls_file` (ls.c:422) uses the long format only under `-l` or `-n`, so `-i`,
`-s` and `-F` alone give a file operand the short form.

The directory listing follows the code as written. This includes the path it
hands to `readlink` for a symbolic link: the bare entry name (see Findings).
The corrected long lines are `Listing.LongEventsIntended`.

## Model

| member | source | states |
|---|---|---|
| Compare.Strcmp | util.c:117-123 | strcmp's sign: 0 exactly for equal names, negative exactly when the first name is byte-wise lexicographically smaller (a proper prefix, or a smaller byte at the first difference) |
| Compare.StrcmpTransitive | util.c:117-123 | the name order is transitive |
| Compare.LargerFirstThenName | util.c:17-63 | the shared comparator shape: negative iff the first value is larger, or equal with the smaller name; 0 iff equal values and equal names |
| Compare.CompareNames | util.c:117-123 | negative iff the first name is lexicographically smaller; 0 only for identical names |
| Compare.CompareSize | util.c:53-63 | larger st_size first; equal sizes ordered by name; 0 only for equal size and name |
| Compare.CompareTimeM | util.c:17-27 | more recent mtime first; equal mtimes ordered by name |
| Compare.CompareTimeA | util.c:29-39 | more recent atime first; equal atimes ordered by name |
| Compare.CompareTimeC | util.c:41-51 | more recent ctime first; equal ctimes ordered by name |
| Compare.ChooseKey | util.c:160-176 | time sort with atime over ctime over mtime, then size, then name; each key iff its flag combination |
| Compare.ComparatorMeaning | util.c:17-63 | each of the five comparators orders by its key (larger first), then by name, and returns 0 only on equal key and name |
| Compare.ComparatorAntisymmetric | util.c:17-63 | cmp(a, b) == -cmp(b, a) for every comparator |
| Compare.ComparatorTransitive | util.c:17-63 | every comparator is transitive, so qsort's precondition holds |
| Compare.ComparatorStrictOnDistinctNames | util.c:17-63 | with distinct names no comparator returns 0 |
| Sorting.ReversedTwice | util.c:66-75 | reversing twice restores the order |
| Sorting.ReversedShort | util.c:66-75 | count 0 or 1 is left unchanged |
| Sorting.ReversedPermutation | util.c:66-75 | reversal is a permutation |
| Sorting.Swap | util.c:71-73 | the two slots exchange their entries; every other slot is unchanged |
| Sorting.ReverseEntries | util.c:66-75 | after the two-pointer loop, new[k] == old[count-1-k] for k < count; slots from count on are unchanged |
| Sorting.SortByCorrect | util.c:160-176 | the reference sort yields a sorted permutation |
| Sorting.SortedUnique | util.c:17-63 | two sorted permutations of entries with distinct names are equal, so qsort's result is determined |
| Sorting.QSort | util.c:162 | qsort's contract: the first count slots become a sorted permutation of themselves; the rest are untouched |
| Sorting.SortOrderPermutation | util.c:154-182 | sorting never loses or duplicates an entry |
| Sorting.SortOrderSorted | util.c:154-182 | -f leaves the order (and ignores -r); otherwise the result, read backwards under -r, is sorted by the chosen comparator |
| Sorting.SortOrderReverse | util.c:178-181 | under -r the result is exactly the reverse of the result without -r |
| Sorting.SortOrderUnique | util.c:154-176 | with distinct names the sorted order is the only sorted permutation |
| Sorting.TiesBrokenByName | util.c:17-63 | in a sorted sequence, entries with equal size or time appear in name order |
| Sorting.SortThenReverse | util.c:154-182 | qsort followed by reverse_entries under -r yields a permutation that is sorted (read backwards under -r) and equals SortOrder when names are distinct |
| Sorting.SortEntries | util.c:154-182 | -f leaves the array untouched; otherwise a permutation, sorted by the chosen comparator, reversed under -r, equal to SortOrder for distinct names; slots past count unchanged |
| Paths.JoinPath | util.c:87-114 | fails exactly when strlen(dir)+strlen(file)+2 > PATH_MAX; otherwise the result starts with dir, ends with file, and is at most one byte longer than both together |
| Paths.JoinPathInjective | util.c:106-112 | two names joined to one directory give the same path only if they are equal |
| Paths.BasenameOfJoin | util.c:106-112 | the last component of the joined path is the file name |
| Paths.Append | util.c:106-112 | strcpy/strcat: the bytes before len are kept and the source follows them |
| Paths.BuildPath | util.c:87-114 | the buffer-filling code yields exactly JoinPath: too long, or dir + "/" + file when dir is non-empty and lacks a trailing '/', else dir + file |
| Units.CeilDiv1024 | ls.c:264-267 | (n+1023)/1024 is the least number of 1024-byte units holding n bytes |
| Units.DisplayBlockSize | util.c:125-141 | blocks*512 under -h; under -k a value k with 2k >= blocks >= 2k-1; else raw blocks |
| Units.KilobytesAreHalfBlocks | util.c:135 | (blocks*512+1023)/1024 == (blocks+1)/2 |
| Units.SizeColumnAgreesWithDisplayBlockSize | print.c:56-73 | the -s column shows exactly get_display_block_size's value ((blocks+1)/2 under -k, raw blocks otherwise) |
| Units.TotalLine | ls.c:263-276 | a total line iff -l, -n or -s; under -h the ceiling of bytes/1024 with a K (0K for zero bytes); under -k ceil(blocks/2); else raw blocks |
| Units.KibTotalDetermined | ls.c:264-267 | under -h the bounds of TotalLine fix the amount to (bytes+1023)/1024 for every total, so an empty directory prints 0K |
| Flags.FlagOf | ls.c:104-178 | each recognised character selects the case of its own letter |
| Flags.FlagLetterRoundTrip | ls.c:108-174 | every case of the switch is reached by its letter |
| Flags.OptionStringLetters | ls.c:102 | the characters that select a case are exactly those of the option string |
| Flags.Effect | ls.c:108-174 | one case keeps the exclusive pairs (-S/-t, -u/-c, -h/-k) exclusive |
| Flags.ApplyFlag | ls.c:104-178 | a getopt result fails (usage) exactly when it decodes to no case; otherwise the exclusive pairs are preserved |
| Flags.ParseFlagsExclusive | ls.c:132-159 | after any flag sequence, sort_size/sort_time, use_atime/use_ctime and human_readable/kilobytes are never both set |
| Flags.ParseFlagsSnoc | ls.c:102-179 | the fold takes one getopt result per step |
| Flags.ParseFailureIsFinal | ls.c:104-107 | once usage is reached, later arguments do not matter |
| Flags.ExpectedSnoc | ls.c:108-174 | each case moves the closed-form Expected options exactly as the switch moves the options |
| Flags.ParseFlagsCharacterized | ls.c:74-181 | parsing fails iff some result is code 1 or a letter outside the option string; otherwise plain flags are on iff their letter occurs, in each overwriting group the last letter wins, -q/-w default to isatty, and -A also holds for root |
| Flags.LastSizeSortIsLastOfSubgroups | ls.c:132-151 | a last -S among -S/-t/-u/-c is also last among -S/-t and among -S/-u/-c |
| Flags.SortFlagsNeedTheirLetters | ls.c:132-151 | sort_time needs -t, sort_size needs -S, use_atime needs -u, use_ctime needs -c; -S after every -t/-u/-c turns all three off |
| Flags.DefaultOptions | ls.c:76-101 | every flag cleared, then -q on for a terminal and -A on for root |
| Flags.ParseOptions | ls.c:74-181 | the getopt loop computes exactly ParseFlags |
| Printer.Sanitize | print.c:20-29 | one byte out per byte in; printable bytes are kept, others become '?'; the output is all printable |
| Printer.SanitizeIdempotent | print.c:20-29 | sanitising twice equals sanitising once |
| Printer.SanitizePrintable | print.c:20-29 | a name of printable bytes is written unchanged |
| Printer.PrintFilenameSanitized | print.c:20-29 | the byte loop writes exactly Sanitize(name) |
| Printer.ShownName | print.c:154-159 | under -q the written name is all printable and as long as the name; without -q it is the name itself |
| Printer.SuffixIndicates | print.c:31-53 | by first match: '/' iff directory, '@' iff link, '%' iff whiteout (where defined), '=' iff socket, '\|' iff fifo, '*' iff executable regular file, nothing otherwise |
| Printer.IdColumn | print.c:105-134 | owner/group names are looked up iff -l without -n; the id is carried either way |
| Printer.ShownTime | print.c:145-151 | atime under -u, else ctime under -c, else mtime |
| Printer.ShownTimeIsSortTime | print.c:145-151 | under -t the time shown is the time sorted by |
| Printer.LongLineOf | print.c:87-178 | inode iff -i, the size column iff -s, mode, links, owner and group as IdColumn decides, size, shown time, shown name, a readlink path iff a symbolic link, a suffix only under -F |
| Printer.CellFields | print.c:230-247 | a grid cell shows the inode iff -i, the size column iff -s, the suffix only under -F, and the name as -q decides |
| Printer.CellIgnoresMetadata | print.c:230-247 | without -i, -s and -F a cell does not depend on the entry's stat |
| Printer.TerminalWidth | print.c:265-271 | the reported width when it is positive, otherwise 80 |
| Printer.Then | ls.c:23-71 | nothing more is written after an exit; otherwise the outputs follow each other |
| Columns.MaxNameLen | print.c:206-213 | the longest name length, and 0 for no entries |
| Columns.ColumnsFit | print.c:217-220 | num_cols = max(1, width / col_width): one more column would exceed the width |
| Columns.RowsSuffice | print.c:221 | ceil(count / num_cols) rows hold the entries, and one fewer would not |
| Columns.GeometryOf | print.c:214-221 | col_width is the longest name plus 1; every name fits in a column; at least one column |
| Columns.GeometryFits | print.c:214-221 | the columns fit the width (unless there is a single column); rows * cols >= count; rows == 0 iff count == 0 |
| Columns.RowSlotsInRange | print.c:224-229 | a row shows only entry indices below count |
| Columns.GridSlotsInRange | print.c:223-261 | the grid shows only entry indices below count |
| Columns.RowShown | print.c:224-229 | from column col on, a row shows exactly the indices x < count with x % rows == row and x / rows >= col, each once |
| Columns.GridShown | print.c:223-261 | the rows from row on show exactly the indices in those rows, each once, and close each row with a newline |
| Columns.GridCoversEachIndexOnce | print.c:223-261 | every index in [0, count) is shown exactly once, row r shows exactly the indices congruent to r mod rows, and exactly rows newlines are written |
| Columns.PaddedUnlessLastInRow | print.c:249-258 | padding follows a cell exactly when another cell follows in its row (not the last column and idx + rows < count) |
| Columns.Spaces | print.c:249-258 | col_width - strlen(name) spaces, none when that is not positive |
| Columns.RenderNewlines | print.c:260 | rendering writes one newline per row end |
| Columns.RenderItems | print.c:230-247 | rendering writes one cell per shown index, in layout order |
| Columns.GridOutputShowsEachEntryOnce | print.c:187-262 | no output for no entries; otherwise exactly rows newlines, and the cells written are those of the entries in GridOrder, a duplicate-free ordering of all indices |
| Columns.LongestName | print.c:206-213 | the max_len scan returns MaxNameLen |
| Columns.Pad | print.c:249-258 | the countdown loop writes Spaces(padding) |
| Columns.PrintCell | print.c:230-258 | the body of the column loop writes the slot's cell and, when padded, its padding |
| Columns.ColumnStartIsProduct | print.c:225 | the entry in column col of row row is col * rows + row |
| Columns.CellIndex | print.c:225 | idx = col * num_rows + row |
| Columns.RowEventsRender | print.c:224-259 | the inner loop's output is the rendering of the row's layout |
| Columns.RowEventsStep | print.c:224-259 | one more column adds its cell before the rest of the row |
| Columns.CellStep | print.c:224-259 | rendering a row from col: the cell at col, padded iff a later cell follows, then the rest |
| Columns.RowStep | print.c:223-261 | rendering from row r: row r's cells, a newline, then the later rows |
| Columns.PrintRow | print.c:224-259 | one pass of the column loop writes exactly the row's rendering |
| Columns.GridShape | print.c:206-221 | the computed col_width, num_cols and num_rows are GeometryOf the entries |
| Columns.PrintGrid | print.c:223-261 | the row loop writes the whole grid rendering |
| Columns.PrintColumns | print.c:187-262 | print_columns over entries[0..count) writes exactly GridOutput |
| Listing.Admitted | ls.c:212-221 | -a admits every name; -A every name but "." and ".."; otherwise no name beginning with '.' |
| Listing.CollectMeaning | ls.c:208-259 | the readdir loop exits iff an admitted name is too long to join while metadata is needed; otherwise the entries are the kept names in readdir order; each carries its lstat (or none without metadata flags); the totals sum the kept entries' blocks and bytes; without metadata flags there are no warnings and zero totals |
| Listing.StepMeaning | ls.c:212-258 | one readdir entry is kept or dropped as Kept says (dropped when lstat fails), and the totals grow only by a kept entry |
| Listing.KeptNamesDistinct | ls.c:208-259 | distinct readdir names give distinct kept names |
| Listing.CollectDistinct | ls.c:208-259 | the collected entries have distinct names |
| Listing.CollectWithoutStat | ls.c:242 | without -l, -n, -s, -F, -i, -t or -S the loop does not depend on lstat |
| Listing.ReadlinkAsWrittenMissesLink | print.c:162-171 | for every symbolic link listed from a non-empty directory path with its metadata fetched, the path string the as-written long line hands readlink differs from the joined path lstat was given (for "." or "./" the two strings name the same file) |
| Listing.ReadlinkPathIsStatPath | print.c:162-171 | the joined path of a collected entry is the file whose lstat the entry carries |
| Listing.ReadlinkIntendedIsStatPath | print.c:162-171 | in the corrected long lines, each link line hands readlink the file its own lstat came from |
| Listing.LongEventsIntendedDiffersOnlyInReadlink | print.c:87-178 | the corrected long lines agree with the as-written ones on every field but the readlink path |
| Listing.LongEvents | ls.c:303-307 | one long line per entry, in order: the name as -q decides, the shown time, the size field, and a readlink path exactly for symbolic links, which is the bare entry name ls_directory passes (ls.c:306, print.c:166) |
| Listing.ListUnopenable | ls.c:195-198 | a directory that cannot be opened yields one warning and nothing else |
| Listing.ListDirectoryTotals | ls.c:263-276 | the run exits iff some admitted name is too long to join; the total line appears iff -l, -n or -s and sums the listed entries |
| Listing.ListDirectoryEntries | ls.c:208-301 | the listed entries are the kept names, each once, with their own lstat, in sort order |
| Listing.ListWithoutStat | ls.c:242-276 | without metadata flags the listing does not depend on lstat and contains no warning and no total line |
| Listing.DisplayCarriesNoWarnings | print.c:187-262 | the grid writes cells, spaces and newlines only |
| Listing.ListFile | ls.c:416-427 | one event: a warning iff lstat fails, a long line under -l or -n, else the operand as given |
| Listing.ListFileSimple | ls.c:416-427 | without -l and -n a file's listing does not depend on its metadata |
| Listing.Grow | ls.c:224-234 | realloc doubles the capacity and keeps the first count entries |
| Listing.Reserve | ls.c:224-237 | the buffer doubles when full; count < capacity afterwards and the capacity stays base * 2^k |
| Listing.ReadEntries | ls.c:201-259 | the readdir loop over the doubling buffer computes exactly Collect; count <= capacity, which starts at 64 and only doubles |
| Listing.CollectStaysExited | ls.c:244-246 | after err(1) later names change nothing |
| Listing.PrintLong | ls.c:304-307 | the loop calling print_long_format(files[i].name, ...) writes exactly LongEvents |
| Listing.LsDirectory | ls.c:184-317 | ls_directory writes exactly ListDirectory: a warning when opendir fails, otherwise the lstat warnings, the total line, and the sorted long lines (readlink on the bare name) or column grid |
| Walker.SubdirCandidateIgnoresAlmostAll | ls.c:353-361 | the walk's filter does not depend on -A |
| Walker.SubdirCandidateIsListed | ls.c:353-361 | every name the walk may enter is also admitted by ls_directory |
| Walker.HiddenListedNotEntered | ls.c:353-361 | under -A a hidden subdirectory is listed but not entered |
| Walker.CollectSubdirsMeaning | ls.c:350-399 | the subdirectory loop exits iff a candidate is too long to join; otherwise it finds the full paths of the non-link directories in readdir order, each with its lstat |
| Walker.SubStepMeaning | ls.c:353-397 | one entry adds its path exactly when it is a candidate directory that is not a link |
| Walker.SubdirPathsDistinct | ls.c:362-397 | distinct names give distinct full paths |
| Walker.SubdirsDistinct | ls.c:350-399 | the directories found have distinct paths |
| Walker.SortedSubdirs | ls.c:403 | after sorting, every entry is still a directory found by lstat, not a link |
| Walker.WalkStartsWithListing | ls.c:331-335 | a walk writes the header only under print_name, then the directory's own listing, before anything else |
| Walker.LinksNotEntered | ls.c:374-377 | every directory recursed into is a non-link directory by lstat |
| Walker.UnknownOptionIsUsage | ls.c:104-107 | an unknown option or non-option argument makes the run the usage line and exit |
| Walker.DirAsFileReadsLstatOnly | ls.c:38-68 | under -d no directory is read and stat is not asked: the output depends on lstat alone |
| Walker.EachAsFile | ls.c:51-56 | under -d each operand is listed from lstat alone |
| Walker.HeaderIffSeveral | ls.c:58-60 | under -R a directory operand starts with its header iff there are several operands |
| Walker.NoListingThenWalk | ls.c:335-410 | with an empty listing and no header, the walk does not start with a header |
| Walker.ListingHasNoHeader | ls.c:184-317 | ls_directory never writes a header |
| Walker.ReadSubdirs | ls.c:344-399 | the subdirectory loop over a buffer starting at 16 and doubling computes exactly CollectSubdirs |
| Walker.SubdirsStayExited | ls.c:364-366 | after err(1) later names change nothing |
| Walker.ProcessRecursively | ls.c:320-413 | process_recursively writes exactly Walk: header, listing, then each sorted subdirectory after an empty line |
| Walker.DescendInto | ls.c:338-410 | the second pass writes exactly Descend |
| Walker.LsOperand | ls.c:51-67 | one operand: as a file under -d, walked under -R or listed when stat says directory, else as a file |
| Walker.RunLs | ls.c:23-71 | main writes exactly Ls: usage on a bad option, "." without operands, otherwise each operand in turn |

## Left out

- `format_size` (util.c:142-152) and the text of the `-h` sizes: they use floating point. The model keeps the byte count that would be formatted.
- `print_time`: localtime and strftime are locale-dependent library calls. The model keeps the chosen timestamp.
- The text of the `getpwuid`/`getgrgid` names, of `strmode`, and the target `readlink` returns: these are library and system calls. The model keeps the chosen id and the readlink path.
- `printf` layout (field widths, the spaces between long-line fields, message texts) and exit codes: the model writes abstract events.
- `get_terminal_width`'s ioctl, `isatty` and `geteuid`: these are process queries, taken as inputs in `Listing.Env`.
- `opendir`, `readdir`, `lstat` and `stat`: these are answered from the filesystem value. Hard-link or bind-mount cycles cannot be expressed in it. Termination follows from build_path's bound on path length.
- The readdir order is an input. Two properties are assumed of it: no name repeats within a directory (`DistinctListings`), and no name is empty (`NamedEntries`).
- `malloc`, `realloc` and `strdup` failures: the model never runs out of memory.
- `free` and `closedir`: memory and handle release is not modelled.
- Strcmp: only the sign of strcmp is modelled, not its magnitude.
- DisplayBlockSize, TotalLine: `uint64_t` wrap-around of the totals and of blocks*512 is not modelled, because sizes are unbounded naturals. The same holds for `int` overflow of count and idx in print_columns.
- QSort: the algorithm is not modelled, only its contract (a sorted permutation). With distinct names that contract determines the result (`Sorting.SortedUnique`).
- Suffix: whether `S_ISWHT` exists on the system is a parameter (`whiteouts`).
- Flags.Effect: the switch is modelled as a function over the whole options value. `Flags.ParseOptions` is the imperative loop around it.
- The else branch of `print_size_long` (print.c:81-83, which prints `st_blocks`) is not modelled: print_long_format calls print_size_long only under `-h` (print.c:137-142), so that branch is never reached. Without `-h` the long line shows `st_size`, as `Units.LongSize` states.
- An opendir failure under `-R` is reported twice: once by ls_directory (ls.c:195-198) and once by process_recursively (ls.c:338-341). The model writes both warnings.
- The whole program is not modelled a second time with the corrected readlink path. The directory listing, the walk and main follow the code as written (the bare entry name). The corrected path appears only in `Listing.LongEventsIntended` and the lemmas about it.
- `usage()`'s text and the getopt diagnostic for an unknown letter: the model writes a single `Usage` event.

## Findings

| source | as written | input that shows it | evidently intended | confidence | as-written member | corrected member |
|---|---|---|---|---|---|---|
| print.c:166 | `print_long_format` calls `readlink(name)` on the name it is given, and ls_directory passes the bare entry name (ls.c:306) while lstat was made on the joined path (ls.c:243-247) | `ls -l d` where `d` holds a symbolic link `x`, run from a directory with no `x` | readlink on the joined path `d/x`, the file lstat described | high (not executed) | Listing.ReadlinkAsWrittenMissesLink | Listing.ReadlinkIntendedIsStatPath |
