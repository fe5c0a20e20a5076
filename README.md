# dot-desktop, modelled in Dafny

dot-desktop is a small command-line resolver for desktop entry files. It scans
four application directories, builds one `Desktop` record (name, command
template, terminal flag) from the "Desktop Entry" section of every file that
has one, and then either lists every name (no argument) or prints the launch
line of the first entry with the given name (one argument): the
`DOTDESKTOP_TERM` or `DOTDESKTOP_APP` prefix followed by the command with the
field codes `%f`, `%F`, `%u` and `%U` removed. Any other argument count is a
usage error with exit status 1.

This project models that pipeline on values:

- `wrappers.dfy` — `Option` and `Result`.
- `replace.dfy` — `Replace.ReplaceAll`, one left-to-right, non-overlapping pass
  of Rust's `str::replace`, and what it does and does not do.
- `entries.dfy` — the `Desktop` record, `Desktop::parse` (`Entries.Parse`, on
  the INI reader's result) and `Desktop::parse_dir` (`Entries.ParseDir`, a loop
  proved against the declarative `Entries.ScanDir`).
- `catalog.dfy` — the four search paths and the aggregation of the scans in
  `main` (`Catalog.DesktopEntries`, computed by `Catalog.CollectEntries`, which
  runs the `parse_dir` loop once per path).
- `cli.dfy` — the launch prefixes, field-code stripping, the argument dispatch
  (`Cli.Dispatch` as the specification; `Cli.Run`, `Cli.ListNames` and
  `Cli.Launch` as the loops of `main`) and a whole run (`Cli.Invoke`).

Outside inputs are parameters: a file is the INI reader's result for it
(`Result<map<section, map<key, value>>, Error>`), a directory is either an
error or its listing in order (each item the reader's result or an item
error), the filesystem is a function from path to directory, HOME is a string,
and the two prefix variables are `Option<string>`. A run's effect is an
`Outcome`: the lines printed to standard output, or the message printed to
standard error with the exit status.

The record has no type, URL, Hidden or NoDisplay fields; nothing is filtered
or sorted; only four directories are scanned; there is no second
(substitution) argument; and a name that matches nothing prints nothing and
the run ends normally.

## Model

| member | source | states |
|---|---|---|
| `Entries.Parse` | src/main.rs:17-27 | Succeeds exactly when the file loaded and has a "Desktop Entry" section; a load error is passed on unchanged, a missing section gives NotFound "no desktop entry in file"; name and exec are the Name and Exec values or "" when missing; term holds exactly when Terminal is present and equal to "true" |
| `Entries.ParseReadsOnlyDesktopSection` | src/main.rs:19-24 | Two files that agree on their "Desktop Entry" section parse to the same result, whatever their other sections |
| `Entries.FirstUnlisted` | src/main.rs:31-32 | The first listing item that could not be read: it is an item error and every item before it was read |
| `Entries.ScanDir` | src/main.rs:29-41 | What `parse_dir` returns, stated declaratively; no contract of its own: `Entries.ParseDir` is proved equal to it, and `ParsedMembers`, `ParsedAppend`, `ParsedBounded` and `MalformedFileSkipped` characterise its records |
| `Entries.Parsed` | src/main.rs:31-38 | The records of a fully read listing; no contract of its own: characterised by `ParsedMembers`, `ParsedAppend`, `ParsedSnoc` and `ParsedBounded` |
| `Entries.ParseDir` | src/main.rs:29-41 | The loop returns what `ScanDir` specifies: the directory's error if it cannot be opened, else the error of the first unreadable item, else the records of the files that parse, in listing order |
| `Entries.ParsedAppend` | src/main.rs:31-38 | Scanning items a then b gives a's records followed by b's: listing order is kept |
| `Entries.ParsedSnoc` | src/main.rs:35-37 | One more readable file extends the records by its parsed record when it parses, and by nothing otherwise |
| `Entries.ParsedMembers` | src/main.rs:35-37 | A record is among the results exactly when some listed file parses to it: failures are dropped and nothing is added |
| `Entries.ParsedBounded` | src/main.rs:31-38 | A directory never yields more records than it lists items |
| `Entries.MalformedFileSkipped` | src/main.rs:35-37 | A directory of one parsable and one unparsable file yields exactly the parsable file's record, in either listing order |
| `Catalog.SearchPaths` | src/main.rs:55-59 | The four directories in scan order, the last under HOME; no contract of its own: `DesktopEntriesOrder` states the entry list in terms of these four paths |
| `Catalog.Flatten` | src/main.rs:61-66 | The `filter_map(Result::ok)` / `flatten` chain over the scans; no contract of its own: characterised by `FlattenAppend`, `FailedScanContributesNothing`, `FlattenMembers` and `FlattenLength` |
| `Catalog.DesktopEntries` | src/main.rs:55-66 | The entry list of one run; no contract of its own: characterised by `DesktopEntriesOrder`, and computed by `CollectEntries` |
| `Catalog.CollectEntries` | src/main.rs:55-66 | Scanning each search path with the `parse_dir` loop and appending the successful scans' records gives exactly `DesktopEntries` |
| `Catalog.DesktopEntriesOrder` | src/main.rs:55-66 | The entry list is the records of /usr/share/applications, then /usr/local/share/applications, then /var/lib/flatpak/exports/share/applications, then HOME/.local/share/applications, a failed scan contributing nothing |
| `Catalog.FlattenAppend` | src/main.rs:61-66 | Aggregating two runs of scans concatenates their records, in order |
| `Catalog.FailedScanContributesNothing` | src/main.rs:64 | Removing a failed scan from anywhere in the sequence does not change the entry list |
| `Catalog.FlattenMembers` | src/main.rs:61-66 | A record is in the entry list exactly when some successful scan produced it |
| `Catalog.FlattenLength` | src/main.rs:61-66 | The entry list is exactly as long as all successful scans together: no deduplication |
| `Replace.ReplaceAll` | src/main.rs:82-85 | Rust's `str::replace`: one left-to-right pass replacing non-overlapping occurrences without rescanning; no contract of its own: characterised by the `Replace` lemmas below |
| `Replace.SubstituteAt` | src/main.rs:82-85 | Substituting over pieces replaces exactly the pieces equal to the pattern and keeps every other piece in its place |
| `Replace.ReplaceAllAbsent` | src/main.rs:82-85 | A string without the pattern's first character is left unchanged |
| `Replace.ReplaceAllShrinks` | src/main.rs:82-85 | With a replacement no longer than the pattern, the result is never longer than the input |
| `Replace.ReplaceAllPlainPrefix` | src/main.rs:82-85 | Text that cannot start an occurrence is copied and the pass continues after it |
| `Replace.ReplaceAllAtOccurrence` | src/main.rs:82-85 | An occurrence at the front is replaced and the pass continues after it, without rescanning |
| `Replace.ReplaceAllFree` | src/main.rs:82-85 | A string in which the pattern occurs nowhere is left unchanged |
| `Replace.ReplaceAllNearMiss` | src/main.rs:82-85 | A pattern-sized piece that is not the pattern, and cannot start an occurrence after its first character, is copied and the pass continues after it |
| `Replace.ReplaceAllCode` | src/main.rs:82-85 | A piece that is empty or pattern-sized and cannot straddle an occurrence is replaced if it is the pattern, copied otherwise, and the pass continues after it |
| `Replace.ReplaceAllInterleave` | src/main.rs:82-85 | Over texts that cannot start an occurrence separated by such pieces, the pass replaces exactly the pieces equal to the pattern and keeps every text |
| `Replace.ReplaceAllInterleaveStep` | src/main.rs:82-85 | If the pass replaces exactly the pattern pieces after the first text and piece, it does so over the whole string |
| `Cli.StripFieldCodes` | src/main.rs:82-85 | The four removal passes never lengthen the command |
| `Cli.StripFieldCodesPlain` | src/main.rs:82-85 | A command without '%' is printed unchanged |
| `Cli.StripFieldCodesBetweenText` | src/main.rs:82-85 | One %f, %F, %u and %U, in that order, between texts without '%' are all removed and the texts are kept |
| `Cli.StripPass` | src/main.rs:82-85 | One removal pass over '%'-free texts separated by field codes or empty pieces erases the pieces equal to its code and keeps the texts and the other pieces |
| `Cli.FourPassesErase` | src/main.rs:82-85 | After the %f, %F, %u and %U passes, every piece that was a field code or empty is empty |
| `Cli.StripFieldCodesInterleaved` | src/main.rs:82-85 | Any number of field codes, repeated and in any order, between texts without '%': every code is removed and every text is kept, in order |
| `Cli.StripFieldCodesSingle` | src/main.rs:82-85 | One field code between two texts without '%' is removed and the texts are joined |
| `Cli.StripFieldCodesTrailingUrl` | src/main.rs:82-85 | "firefox %u" becomes "firefox " |
| `Cli.StripFieldCodesExample` | src/main.rs:82-85 | "run %f %F extra %u %U" becomes "run   extra  " |
| `Cli.StripFieldCodesDoesNotRescan` | src/main.rs:82-85 | "%%ff" becomes "%f": a removal can form a new field code, which no later pass removes |
| `Cli.Prefix` | src/main.rs:46-53 | A set variable gives its value and one space, an unset one gives nothing; no contract of its own: characterised by `LaunchLineSelectsPrefix` and `LaunchLinePlainCommand` |
| `Cli.PrefixFor` | src/main.rs:78-81 | The terminal prefix for a terminal entry, the application prefix otherwise; no contract of its own: characterised by `LaunchLineSelectsPrefix` |
| `Cli.LaunchLine` | src/main.rs:78-85 | The printed line: the selected prefix followed by the stripped command; no contract of its own: characterised by `LaunchLineSelectsPrefix`, `LaunchLinePlainCommand` and the stripping lemmas |
| `Cli.LaunchLineSelectsPrefix` | src/main.rs:46-81 | A terminal entry's line depends on DOTDESKTOP_TERM and never on DOTDESKTOP_APP, a non-terminal entry's the other way round; an unset variable gives no prefix |
| `Cli.LaunchLinePlainCommand` | src/main.rs:46-85 | With the selected variable set, the line of a command without '%' is the value, one space and the command |
| `Cli.FirstMatch` | src/main.rs:76-77 | The position of an entry with the name and none before it, or none when no entry has the name |
| `Cli.Dispatch` | src/main.rs:69-94 | Argument vector of length 1 (no user argument): every name, one per line, in list order; length 2: at most one line, the prefixed stripped command of the first entry with the name, or no line when none matches; any other count: the usage message with status 1 |
| `Cli.FirstMatchAppend` | src/main.rs:76-77 | Appending entries after a list that already holds the name does not move the first match |
| `Cli.LaterEntriesIgnored` | src/main.rs:76-88 | Once an entry matches, entries appended after it cannot change the output |
| `Cli.Names` | src/main.rs:70-74 | The entries' names in order; no contract of its own: `Dispatch` states the zero-argument output pointwise and `ListNames` is proved equal to it |
| `Cli.ListNames` | src/main.rs:70-74 | The loop prints the entries' names in order |
| `Cli.Launch` | src/main.rs:75-88 | The loop with its early return prints the first match's launch line, or nothing |
| `Cli.Run` | src/main.rs:69-94 | The dispatch on the argument count agrees with `Dispatch` |
| `Cli.Invoke` | src/main.rs:44-95 | A whole run, building the entry list with `CollectEntries`, prints what `Dispatch` gives over `DesktopEntries` |

## Left out

- The INI reader (`Ini::load_from_file`) is not part of this model: a file is given by its result, a map from section name to key/value map, or a load error. Repeated sections or keys and the reader's own error kinds are therefore not modelled.
- Filesystem access (`fs::read_dir`, `entry.path()`) is not modelled: a directory is given as an error or as its items in listing order, each item the reader's result for its path or an item error. The order the operating system lists files in is an input.
- Environment reads (HOME, DOTDESKTOP_TERM, DOTDESKTOP_APP) and `env::args()` are parameters. `env::args()` panics on an argument that is not valid Unicode; the `seq<string>` parameter rules that case out.
- Printing and `process::exit` are not performed; `Outcome` records what would be printed and the exit status.
- The panics of `unwrap()` on a missing or non-UTF-8 HOME, on non-UTF-8 variable values and on non-UTF-8 paths are excluded by the parameter types: HOME is a string, variable values are strings, and every listed item is taken to have a readable path.
- `Box<dyn Error>` is reduced to the `Entries.Error` datatype; error messages other than "no desktop entry in file" are opaque strings.
- Rust's `str::replace` works on UTF-8 bytes; the model works on characters, which gives the same result for the ASCII field codes.
