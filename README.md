# bloat-win `dump` in Dafny

`dump` reads the text report that SymbolSort writes for a Windows binary.
It finds the table headed "Sorted by Path" and turns every row (size,
symbol count, path) into an entry. The path is normalised to forward
slashes, and it gets a trailing `/` unless it names a source file. The
entries are sorted by path. `dump` then writes a JavaScript tree (`var kTree
= {...}`) for a treemap viewer. Each entry becomes a block nested by how many
directories it shares with the entry before it, and the root's `$area` is the
sum of the sizes of the entries at the top level.

This project models `RunMain` of `dump.cpp` and the four helpers it calls:

- `paths.dfy` (module `Paths`) covers `normalizePath`, `commonParent`,
  `extractStem` and `isSource`. The loops are methods proved against
  recursive specification functions (`Normalized`, `CommonDepth`, `Stem`,
  `IsSource`). `normalizePath` works in place on an `array<char>`.
- `order.dfy` (module `PathOrder`) covers `std::lexicographical_compare` on
  paths. It proves the order is a strict total order, which is what
  `std::sort` needs.
- `entries.dfy` (module `Entries`) covers the `Entry` record. It also holds
  the row step: normalise the path, append `/` for a directory, and cast the
  size with `static_cast<uint64_t>`. Last, it holds the sort of the entry
  vector as an in-place sort on an `array<Entry>`.
- `scanner.dfy` (module `Scanner`) covers the table scan:
  - the marker search;
  - the header skip;
  - the row loop, which ends at the first line that does not yield three
    fields.

  Input lines come already tokenised. Each one carries its text and what
  `sscanf(" %d %d %s")` makes of it.
- `treewalk.dfy` (module `TreeWalk`) covers the walk over the sorted entries:
  - the indent of each entry;
  - the running `total`;
  - the close loops;
  - the block opened for each entry.

  The printed text is modelled as events. `Open(indent, name, area)` stands
  for the lines printed for one entry. `Close(indent)` stands for one `]` /
  `},` pair. Nesting is checked by replaying the events against a stack of
  open blocks.
- `dump.dfy` (module `Dump`) covers `RunMain` end to end: scan, sort, walk.
- `wrappers.dfy` holds `Option` and `Result`.

The description of the tool shows `a/b.cc`, `a/c.cc`, `d.cc` giving a root
area of 350, with `a` as a block of area 300. The code does not build
directory blocks of its own: a directory block exists only when the table
has a row for the directory. With a row `a/` of size 300, the root's area is
300 + 50 (`DirectoryRowArea`). With only the three file rows, `a/b.cc` is
the first top-level entry and the root's area is 100 + 50 = 150
(`MissingDirectoryRowArea`). The model follows the code.

## Model

| member | source | states |
|---|---|---|
| Paths.NormalChar | dump.cpp:74-75 | a backslash becomes '/', every other character is kept, and no backslash comes out |
| Paths.Normalized | dump.cpp:72-78 | the normalised path has the same length, contains no backslash, has '/' wherever the input had a backslash and the input's character everywhere else |
| Paths.NormalizedIdempotent | dump.cpp:72-78 | normalising a normalised path changes nothing |
| Paths.NormalizedFixesSlashPaths | dump.cpp:72-78 | a path without backslashes is left as it is |
| Paths.NormalizePath | dump.cpp:72-78 | the loop rewrites exactly the range [start, end) of the buffer to its normalised form and leaves the characters before and after it unchanged |
| Paths.SlashesIn | dump.cpp:84-85 | the number of '/' among the first n characters is at most n |
| Paths.MatchFromStops | dump.cpp:83 | from index i on, the scan passes only equal, non-NUL characters, and it stops where either path ends, the characters differ, or a NUL is reached |
| Paths.MatchLenIsCommonPrefix | dump.cpp:83 | the scan from the start stops at the end of the longest common NUL-free prefix |
| Paths.CommonParent | dump.cpp:81-90 | the loop returns the number of '/' in the common prefix of the two paths |
| Paths.MatchFromSymmetric | dump.cpp:83 | the scan from index i does not depend on argument order |
| Paths.MatchLenSymmetric | dump.cpp:83 | the common prefix does not depend on argument order |
| Paths.CommonDepthSymmetric | dump.cpp:81-90 | commonParent(a, b) equals commonParent(b, a) |
| Paths.CommonDepthBounded | dump.cpp:81-90 | commonParent never exceeds the '/' count of either path |
| Paths.CommonDepthWithEmpty | dump.cpp:81-90 | against the empty sentinel path commonParent is 0, on either side |
| Paths.MatchLenSelf | dump.cpp:83 | a NUL-free path matches itself to its full length |
| Paths.CommonDepthAfterPrefix | dump.cpp:81-90 | two paths that agree on a NUL-free prefix and then differ at once share exactly the '/' of that prefix |
| Paths.CommonDepthOfSharedDirectory | dump.cpp:81-90 | two paths that share a NUL-free prefix share at least its '/' |
| Paths.SlashesAppend | dump.cpp:84-85 | the '/' count of a concatenation is the sum of the counts of its parts |
| Paths.NoSlashes | dump.cpp:84-85 | a string without '/' has a '/' count of 0 |
| Paths.DropTrailingSlashShape | dump.cpp:94-97 | one final '/' is removed when the path has one, and otherwise the path is kept; nothing else changes |
| Paths.NameStartBefore | dump.cpp:98-100 | the backward scan from n stops just past a '/', or at index 0 |
| Paths.NameStartBeforeNoSlash | dump.cpp:98-100 | no '/' lies between where the backward scan stops and where it started |
| Paths.NameStartBeforeUnique | dump.cpp:98-100 | any index just past a '/' (or 0) with no '/' up to n is where the scan stops |
| Paths.CharsIsSlice | dump.cpp:96-99 | collecting the characters from `from` to `to` one at a time gives the slice between them |
| Paths.StemEnd | dump.cpp:94-97 | the component ends one character before the end when the path ends in '/', and at the end otherwise |
| Paths.StemIsFinalComponent | dump.cpp:92-103 | the stem holds no '/' and is the longest '/'-free tail of the path once one trailing '/' is dropped |
| Paths.StemOfJoin | dump.cpp:92-103 | the stem of `dir/name` and of `dir/name/` is `name`, and so is the stem of `name` and `name/` |
| Paths.StemOfPrefix | dump.cpp:92-103 | a path made of a prefix ending in '/', a '/'-free name and at most one '/' has that name as its stem |
| Paths.Reverse | dump.cpp:101 | the reversed string has the same length, with character k taken from the mirrored position |
| Paths.ExtractStem | dump.cpp:92-103 | the backward scan followed by std::reverse returns Stem(path) |
| Paths.SourceShape | dump.cpp:105-109 | a source path has at least two characters and ends in one of 'c', 'h', 'p', 'm', 'l', never in '/' |
| Paths.DirectoryNotSource | dump.cpp:105-109 | a path with a '/' appended is never a source path |
| Paths.IsSourceCaseSensitive | dump.cpp:105-109 | the suffix test is case-sensitive: `main.cpp` is a source and `main.CPP` is not |
| PathOrder.PrefixLen | dump.cpp:155-156 | the length of the longest common prefix; the paths differ right after it or one of them ends there |
| PathOrder.LessAtFirstDifference | dump.cpp:155-156 | a sorts before b exactly when, at the first difference, a has run out or has the smaller character, and b has not run out |
| PathOrder.Irreflexive | dump.cpp:154-157 | no path sorts before itself |
| PathOrder.Asymmetric | dump.cpp:154-157 | if a sorts before b then b does not sort before a |
| PathOrder.Transitive | dump.cpp:154-157 | the comparison is transitive |
| PathOrder.Total | dump.cpp:154-157 | of two different paths, one sorts before the other |
| PathOrder.Antisymmetric | dump.cpp:154-157 | two paths that do not sort before each other are equal |
| PathOrder.LessEqTransitive | dump.cpp:154-157 | "does not sort after" is transitive |
| PathOrder.EmptyIsLeast | dump.cpp:138 | the sentinel's empty path sorts before every non-empty path |
| Entries.ToU64 | dump.cpp:151 | the cast keeps sizes in [0, 2^64) and maps a negative int x to x + 2^64 |
| Entries.ClassifiedShape | dump.cpp:145-151 | a stored path is non-empty and backslash-free; a source path is stored as normalised and does not end in '/'; any other path gets exactly one '/' appended and is then not a source; a size in range is stored unchanged |
| Entries.ClassifyNormalSource | dump.cpp:145-151 | a normalised source path with an in-range size is stored exactly as given |
| Entries.MakeEntry | dump.cpp:145-151 | copying the token into a buffer, normalising it in place and appending '/' and NUL gives Classify(path, size) |
| Entries.AdjacentToSorted | dump.cpp:154-157 | when every entry's path does not sort after its neighbour's, every pair of entries is in path order |
| Entries.SortEntries | dump.cpp:154-157 | the entry array ends up ordered by path (every pair, not only neighbours) and is a permutation of the array it started as |
| Entries.SentinelFirst | dump.cpp:138-157 | after the sort the sentinel is at index 0 and the entries after it are exactly the rows, each with a non-empty path |
| Scanner.FindMarker | dump.cpp:125-130 | the result is the index of a line starting with "Sorted by Path", and no earlier line starts with it; None means no line does |
| Scanner.TableStart | dump.cpp:134 | the rows start two lines after the marker, or at the end of the input when the header line is missing |
| Scanner.TableRowsAreFields | dump.cpp:140-144 | the rows are the fields of consecutive lines from the start, and the line after the last row (if any) does not yield three fields |
| Scanner.MalformedLineEndsTable | dump.cpp:142-143 | no line at or after a malformed line contributes a row |
| Scanner.CollectedNonEmpty | dump.cpp:145-151 | every entry made from a row has a non-empty path |
| Scanner.SeekMarker | dump.cpp:125-130 | the loop finds a marker exactly when one exists, and it stops at the first one |
| Scanner.ReadRows | dump.cpp:136-152 | the vector is the sentinel followed by one classified entry per row |
| Scanner.ScanTable | dump.cpp:121-152 | the scan fails when there is no marker; otherwise it gives the sentinel and the classified rows that follow the header |
| Scanner.RowsStopAtMalformedLine | dump.cpp:134-152 | for marker, header, row, malformed line, more: the table is the sentinel and that one row; the header is skipped whatever it holds, and nothing after the malformed line is read |
| Scanner.MarkerDecidesFailure | dump.cpp:125-132 | the scan fails exactly when no line starts with the marker |
| TreeWalk.Indent | dump.cpp:168 | indents are even and at least 2, and equal 2 exactly when the entry shares no directory with the one before it |
| TreeWalk.ClosesCountDown | dump.cpp:172-175 | the close loop runs (from - to) / 2 + 1 times when from >= to and not at all otherwise; iteration k closes indent from - 2k |
| TreeWalk.CloseLoop | dump.cpp:172-175 | the loop appends exactly Closes(from, to) to what was already printed |
| TreeWalk.VisitOf | dump.cpp:168-183 | an entry is visited at an even indent of at least 2 and with its own size |
| TreeWalk.VisitAt | dump.cpp:167-168 | the k-th visit is entry k+1 against entry k, so each entry is compared with its predecessor in sorted order |
| TreeWalk.VisitEntry | dump.cpp:167-187 | one iteration sets lastIndent to the entry's indent, adds the size to total only at indent 2, runs the close loop from the old lastIndent, then opens the entry's block with its stem |
| TreeWalk.WalkEntries | dump.cpp:166-188 | the loop over entries 1 .. size-1 leaves lastIndent, total and the output as the run of all visits |
| TreeWalk.EmitTree | dump.cpp:159-201 | the walk, the final close loop down to indent 2 and the root's total give Emit(v) |
| TreeWalk.RunTotal | dump.cpp:169-170 | after n visits, total is the sum of the sizes of those of them at indent 2 |
| TreeWalk.TopSizeOfVisits | dump.cpp:167-170 | the sizes counted by the first n-1 visits plus those of the entries still to come that share no directory with their predecessor make up the whole top-level sum |
| TreeWalk.RootAreaIsTopLevelSum | dump.cpp:159-201 | the root's "$area" is the sum of the sizes of exactly the entries that share no directory with their predecessor |
| TreeWalk.FirstEntryAtTop | dump.cpp:167-187 | after the sentinel the first entry opens at indent 2 with its stem and size, and total becomes its size |
| TreeWalk.EmptyTable | dump.cpp:159-201 | a table with no rows gives a root with no children and area 0 |
| TreeWalk.Ladder | dump.cpp:177-186 | a stack of n open blocks has indents 2, 4, ..., 2n |
| TreeWalk.ReplayAppend | dump.cpp:167-192 | replaying two stretches of output is replaying the first, then the second from where it left off |
| TreeWalk.ReplayCloses | dump.cpp:172-175 | a close loop from `from` down to `to` pops exactly the open blocks at those indents |
| TreeWalk.StepNests | dump.cpp:172-184 | closing down to the new indent and opening a block there keeps the output well nested when the indent rises by at most one level, and breaks it otherwise |
| TreeWalk.NestStep | dump.cpp:167-187 | one iteration keeps the output well nested, with one open block per level up to the new lastIndent, exactly when it was so before and the entry does not skip a level |
| TreeWalk.RunNesting | dump.cpp:167-187 | after n visits the output is well nested with one open block per level up to lastIndent exactly when none of them skipped a level, and badly nested otherwise |
| TreeWalk.VisitsClimb | dump.cpp:167-186 | every visit's indent is even and at least 2, and the visits skip no level exactly when no entry opens more than one level below its predecessor |
| TreeWalk.VisitIndents | dump.cpp:167-186 | visit k's indent is that of entry k+1 against entry k, and lastIndent before it is the indent of the entry before |
| TreeWalk.EmitNesting | dump.cpp:159-192 | the whole output is well nested and every block is closed exactly when no entry opens more than one level below its predecessor |
| TreeWalk.SentinelStartsAtTop | dump.cpp:138 | with the sentinel first, the first real entry never skips a level |
| TreeWalk.TieOrderDecidesArea | dump.cpp:154-170 | with two rows for the same directory, both orders are sorted permutations, and the root's area is the size of whichever row comes first |
| TreeWalk.DirectoryIndents | dump.cpp:168 | a directory row opens at indent 2 after the sentinel, and a second row for the same directory opens at indent 4 |
| TreeWalk.DirectorySlashes | dump.cpp:84-85 | a directory path `d/` holds exactly one '/' |
| TreeWalk.SiblingIndent | dump.cpp:168 | two paths under the same directory whose names start differently both sit at indent 4 |
| TreeWalk.TopIndent | dump.cpp:168 | paths whose first characters differ share no directory and sit at indent 2 |
| TreeWalk.WalkDownArea | dump.cpp:167-170 | for indents 2, 4 the root's area counts only the first entry |
| TreeWalk.WalkDownUpArea | dump.cpp:167-170 | for indents 2, 4, 2 the root's area counts the first and third entries |
| TreeWalk.WalkDownAcrossUpArea | dump.cpp:167-170 | for indents 2, 4, 4, 2 the root's area counts the first and fourth entries |
| TreeWalk.DirectoryRowArea | dump.cpp:159-201 | a directory row d/ with two files under it and a top-level file z give a root area of size(d/) + size(z) |
| TreeWalk.MissingDirectoryRowArea | dump.cpp:159-201 | the same files without the directory row give a root area of size(d/x) + size(z) |
| Dump.RunMain | dump.cpp:120-201 | fails exactly when there is no marker; otherwise the entries are a path-sorted permutation of the scanned ones with the sentinel first, and the document is the walk over them |

## Left out

- The command line (`parseArgs`, `printHelp`) and `Fatal` are not modelled. A missing marker is the `Fail(MarkerNotFound)` result. The usage and file-opening errors are not represented.
- File I/O is not modelled: `fgets`, `fopen`, `fclose` and `printIndent`. The input is a sequence of lines, and the output is a sequence of events instead of JSON text. The exact characters, spaces, and the trailing commas the code prints are not modelled.
- `fgets` reads through a 300-byte buffer, so it splits longer lines in two. The fixed 300-byte `path` buffer overflows on long tokens. Neither is modelled: lines arrive whole and paths have any length.
- How `sscanf(" %d %d %s")` tokenises a line is not modelled. Each line already carries the three fields, or none when the conversion does not give three. A `%d` that overflows `int` is part of that.
- The KB figures printed with `%.2f` (floating point) and the `%I64u` format are not modelled. An `Open` event carries the integer size.
- Entries.ToU64: a negative `size` wraps modulo 2^64 as the cast does. The surrounding overflow of the 32-bit `int` parsed by `sscanf` is not modelled.
- TreeWalk.RunTotal: `total` is an `int` in the source and the `uint64_t` sizes are added into it, so large tables overflow. The model uses an unbounded `nat`. The root's `%d` print of it is not modelled either.
- Paths.IsSource: the source's `isSource` compares the 2 to 4 bytes before the end of the path buffer. It reads before the path's start for paths shorter than the suffix. The model is a plain suffix test on the path, which is what the code computes whenever the path is at least 4 characters long.
- PathOrder.Less: characters compare by code point. The source compares `char` values, which are signed on the MSVC target, so bytes at or above 0x80 sort before ASCII there.
- Entries.SortEntries: `std::sort` is modelled by an insertion sort. The only things proved are the ones `std::sort` promises: the result is sorted and is a permutation. The order it gives to entries with equal paths is not modelled, and TieOrderDecidesArea shows that this order changes the root's area.
- Paths.MatchLenIsCommonPrefix: `commonParent` stops at a NUL. Paths coming from `%s` never hold one, and the model allows them anywhere.
