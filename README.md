# apt-show-versions: a verified model of the report logic

apt-show-versions reports, for every package in APT's cache, whether the
installed version is up to date, upgradable, no longer available or newer
than the archive, and from which suite the relevant version comes. This
project models the logic in `apt-show-versions.cc` in Dafny and proves its
properties. It covers:

- `TablePrinter<N>`: the two-phase column aligner behind the all-versions
  listing. It is a class with an `array<nat>` of running column maxima and a
  sequence of rows. `Output` returns the text it would write to `cout`.
- `describe_state` and `show_all_versions`: the header line and the
  four-column table of every version and file record.
- `my_name`: the display name `FullName` or `FullName/<codename|archive>`,
  modelled as the loop the code actually runs.
- `print_only` and the decision chain of `show_upgrade_info`. This is a pure
  function returning the branch taken (`Outcome`), the all-versions block and
  the summary line.
- `main`: the option checks, the exit codes and the reporting loop.

The cache is an input. A `Package` holds its versions in cache order. The
installed version and the policy's candidate are positions in that list. Each
version holds its package-file records, and each record holds the NotSource
flag and its optional archive, codename and site. `Cache.WellFormed` states:

- every version was recorded from at least one file;
- for an installed package, the installed version and the candidate are
  versions of the package.

The first is a guarantee of APT's cache. The second is an assumption of the
model: `GetCandidateVer` can return no version, and the code dereferences it
without a check (see "## Left out").

What the code does, as the model states it:

- The table pads the last column to its width too (`setw(max[N-1])`), so
  every row ends in blanks up to the column width. The two-row example
  renders as `"a   bb\nccc d \n"`.
- `my_name` advances the version iterator `c`. It never advances the file
  iterator `vf`, and `prio` stays 0. So the name comes from the first file
  record of the version, and a higher-priority record later in the list never
  wins (`Naming.HigherPriorityIgnored`).
- The option conflicts (No-Hold with names, Regex-All without) and a cache
  that did not open give exit code 2. A failed parse gives 1. No exit code
  depends on whether a package is upgradable.
- The summary line says "upgradable". The chain of `show_upgrade_info` has no
  final `else`. Its no-match case needs two versions with the same ID, and
  APT's IDs are unique (`Report.ChainAlwaysMatches`).
- Suite names come only from a record's codename or archive.

## Model

| member | source | states |
|---|---|---|
| `Table.PadRight` | apt-show-versions.cc:105-108 | left-justified `setw`: the cell, then blanks up to the width; a longer cell is kept whole |
| `Table.ColumnMaxIsMax` | apt-show-versions.cc:97-102 | the running maximum bounds every cell of its column, some cell reaches it, and it is 0 with no rows |
| `Table.TablePrinter.constructor` | apt-show-versions.cc:92-95 | a new printer has no rows, every column maximum is 0, and the invariant holds |
| `Table.TablePrinter.Insert` | apt-show-versions.cc:97-102 | the row is appended after the earlier rows, which stay unchanged; `max[i]` becomes the larger of its old value and the new cell's length; the invariant "max[i] is the widest cell of column i" is kept |
| `Table.TablePrinter.Output` | apt-show-versions.cc:104-112 | the output is every row in insertion order, each cell padded to max[i]+1 (the last column to max[i]), each row ending in a newline |
| `Table.RowLength` | apt-show-versions.cc:106-111 | a row whose cells fit has length sum(max) + N - 1, followed by one newline |
| `Table.CellsLength` | apt-show-versions.cc:107-108 | cell j starts after the field widths of the cells before it |
| `Table.CellLeftJustified` | apt-show-versions.cc:105-108 | each cell's text starts at its column offset and is followed by blanks up to its field width |
| `Table.RenderPrefix` | apt-show-versions.cc:106-111 | rendering more rows only extends the text; earlier rows stay where they were |
| `Table.RenderLength` | apt-show-versions.cc:106-111 | rows of a common length L render to exactly rows × L characters |
| `Table.RowFollowsEarlierRows` | apt-show-versions.cc:106-111 | row k comes right after rows 0..k-1 in the output |
| `Table.RowAt` | apt-show-versions.cc:106-111 | with rows of common length L, row k is the text between k·L and (k+1)·L: rows come out in insertion order |
| `Table.AlignedRows` | apt-show-versions.cc:104-111 | rendered with the column maxima of its rows, every row has length sum(max) + N - 1 plus its newline |
| `Table.ValidRowsHaveCommonLength` | apt-show-versions.cc:104-111 | every row a valid printer outputs has the same length: sum(max) cell widths, N - 1 separating blanks and a newline |
| `Table.MaxIsWidths` | apt-show-versions.cc:90-102 | a valid printer's `max` array is exactly the column maxima of its rows |
| `Table.TwoRowRender` | apt-show-versions.cc:104-111 | rows ["a","bb"], ["ccc","d"] with widths 3 and 2 render as "a   bb\nccc d \n" |
| `Table.TwoRowExample` | apt-show-versions.cc:87-112 | inserting those two rows into a printer and outputting gives that text, last column padded |
| `Naming.Attribution` | apt-show-versions.cc:50-57 | one record's contribution: nothing, or the full name, a slash and a suite |
| `Naming.DisplayName` | apt-show-versions.cc:49-59 | the name my_name returns, decided by the first record of the version; it always starts with the full name |
| `Naming.MyName` | apt-show-versions.cc:43-60 | the loop as written returns `DisplayName`, for every priority function: only the first record of the start version counts |
| `Naming.DisplayNameShape` | apt-show-versions.cc:54-59 | the name is FullName, FullName/codename or FullName/archive of the first record |
| `Naming.DisplayNamePreferences` | apt-show-versions.cc:50-57 | a NotSource record gives the bare name; a codename wins over an archive; an archive alone gives FullName/archive; neither gives the bare name |
| `Naming.FirstRecordDecides` | apt-show-versions.cc:49-58 | two versions whose first records agree get the same name, whatever their other records and the versions after them |
| `Naming.HigherPriorityIgnored` | apt-show-versions.cc:47-58 | with "stable" at priority 100 first and "testing" at 500 second, the name is "foo/stable" |
| `Report.DescribeState` | apt-show-versions.cc:115-134 | the state text: a blank, then the three state words; `DescribeStateInjective` shows the text determines the states |
| `Report.TablesHaveNoBlanks` | apt-show-versions.cc:117-125 | no word of the three state tables contains a blank |
| `Report.IndexOf` | apt-show-versions.cc:117-125 | proof helper for the distinctness lemmas below; the source does no lookup. It finds the first equal entry, or reports that none exists |
| `Report.SelectionsDistinct` | apt-show-versions.cc:117-118 | the selection-state words are pairwise distinct |
| `Report.InstallsDistinct` | apt-show-versions.cc:119-120 | the install-state words are pairwise distinct |
| `Report.CurrentsDistinct` | apt-show-versions.cc:121-125 | the current-state words are pairwise distinct |
| `Report.SplitAtBlank` | apt-show-versions.cc:131-133 | proof helper for `DescribeStateInjective`; the source does no splitting. A blank-free word followed by a blank splits off uniquely |
| `Report.ThreeWords` | apt-show-versions.cc:131-133 | proof helper for `DescribeStateInjective`: " a b c" with blank-free a and b reads back as a, b, c |
| `Report.DescribeStateInjective` | apt-show-versions.cc:115-134 | the state text determines the selection, install and current states (all within the asserted bounds) |
| `Report.HoldIsNamedHold` | apt-show-versions.cc:117-118 | the selection state tested for Hold is the one named "hold" |
| `Report.Header` | apt-show-versions.cc:140-146 | the header line: for an installed package it starts with the full name and a blank, otherwise "Not installed"; it ends in a newline |
| `Report.FileRows` | apt-show-versions.cc:150-157 | the rows of one version have four cells each |
| `Report.VersionRows` | apt-show-versions.cc:149-159 | the rows of all versions have four cells each |
| `Report.FileRowsMembers` | apt-show-versions.cc:150-157 | a row is in a version's rows iff it is (name, version, archive, site) of one of its non-NotSource records |
| `Report.VersionRowsMembers` | apt-show-versions.cc:149-159 | a row is in the table iff it comes from a non-NotSource record of some version |
| `Report.ShowAllVersions` | apt-show-versions.cc:136-162 | the output is the header line then the rendered table of those rows: "FullName VerStr describe_state" when installed, else "Not installed" |
| `Report.PrintOnly` | apt-show-versions.cc:62-71 | the line always starts with the name; under Brief only a newline follows, otherwise the rest of the line |
| `Report.PrintOnlyCut` | apt-show-versions.cc:62-71 | a line cut by print_only keeps its name part as the prefix of the full line |
| `Report.Suppressed` | apt-show-versions.cc:166-171 | the two early returns: held under No-Hold, or not installed while uninstalled packages are not shown |
| `Report.Chain` | apt-show-versions.cc:182-202 | the chain never yields the early-return or not-installed outcomes; its line is empty exactly when no branch matched or Upgrades-Only silenced the branch |
| `Report.ShowUpgradeInfo` | apt-show-versions.cc:164-203 | the early return (`NoOutput`, nothing printed) happens exactly when the package is held under No-Hold, or not installed while uninstalled packages are not shown; otherwise the all-versions block comes first exactly under All-Versions |
| `Report.SkippedPackageNeedsNoLabels` | apt-show-versions.cc:166-174 | under All-Versions, an uninstalled package with an archive-less source record, not shown because uninstalled packages are off, is accepted and prints nothing: show_all_versions is never reached |
| `Report.NotInstalledAlwaysPrinted` | apt-show-versions.cc:170-180 | an uninstalled package that passes the filters always prints "<name> not installed"; the All-Versions test on line 177 never decides |
| `Report.ChainBranches` | apt-show-versions.cc:186-202 | for an installed package exactly one branch runs, each under its stated condition, in the order of the chain, including the case where nothing matches |
| `Report.ChainAlwaysMatches` | apt-show-versions.cc:186-202 | with unique version IDs, an installed package that passes the filters always matches some branch of the chain |
| `Report.MovedCandidateIsUpgradable` | apt-show-versions.cc:186-190 | a candidate whose ID differs from the installed one always gives the upgradable line, never "no available version" or the manual line |
| `Report.OutcomeIgnoresPrintOptions` | apt-show-versions.cc:164-203 | only No-Hold and show_uninstalled affect which branch runs; Brief, Upgrades-Only and All-Versions do not |
| `Report.UpgradesOnlyEffect` | apt-show-versions.cc:186-201 | Upgrades-Only empties exactly the no-available, uptodate and newer-than-archive lines; it never suppresses the upgradable or manual lines, the not-installed line or the table |
| `Report.ChainBrief` | apt-show-versions.cc:186-201 | under Brief each print_only line of the chain becomes the display name and a newline; a line Upgrades-Only silenced stays empty; the no-available line is unchanged |
| `Report.BriefEffect` | apt-show-versions.cc:176-201 | Brief changes no branch and no table; the not-installed and no-available lines are unchanged; a line Upgrades-Only silenced stays empty; every other line is cut to the display name and a newline |
| `Report.UpgradableExample` | apt-show-versions.cc:189-190 | foo installed at 1.0 with candidate 1.2 from archive "stable" prints "foo/stable upgradable from 1.0 to 1.2" |
| `Report.NoAvailableExample` | apt-show-versions.cc:186-188 | bar at 2.0, its one version having one record, prints "bar 2.0 installed: No available version in archive" |
| `Driver.ArgumentError` | apt-show-versions.cc:238-243 | the two option conflicts; `Run` exits with 2 exactly on them or on an unopened cache |
| `Driver.ShowUninstalled` | apt-show-versions.cc:262-263 | a pattern's matches are shown even when not installed under Regex-All or for a literal match; used by `PatternReports` |
| `Driver.Run` | apt-show-versions.cc:221-265 | exit 1 iff parsing fails; 2 iff an option conflict or an unopened cache; otherwise 0. The report is printed only on a 0 exit without help: every package with show_uninstalled off, or each pattern's matches in argument order. Printable records are required only of the list the run reads, and only when the checks pass |
| `Driver.ReportAll` | apt-show-versions.cc:250-252 | the loop over a package list prints the reports of its packages in order |
| `Driver.Unsuppressed` | apt-show-versions.cc:166-171 | a package is kept iff it is in the input and passes both filters |
| `Driver.SuppressedPrintNothing` | apt-show-versions.cc:166-171 | filtered-out packages add nothing to the report: it equals the report of the packages that pass, in order |
| `Driver.WithoutNamesOnlyInstalled` | apt-show-versions.cc:250-252 | without package names, only installed packages can appear in the report |
| `Driver.ConflictingOptions` | apt-show-versions.cc:238-248 | No-Hold with names, or Regex-All without them, exits with 2 and prints no report, whatever the cache holds |

## Left out

- APT's cache, policy and iterators are left out. Versions, file records,
  the candidate and priorities are plain inputs. Priorities are the
  parameter `priority` of `Naming.MyName`, a total function from file to int.
- `Naming.MyName` requires the version to have a file record. APT's cache
  gives every version one. Dereferencing the end of an empty file list reads
  a dummy record, which is not modelled.
- `Report.ShowAllVersions` requires every non-NotSource record to carry an
  archive and a site. The code builds `std::string` cells from these
  pointers, and a null one is undefined behaviour. `Report.ShowUpgradeInfo`,
  and through it `Driver.Run`, asks this only of packages that pass the
  filters while All-Versions is on, the only ones that reach
  `show_all_versions` (`Report.SkippedPackageNeedsNoLabels`). A run that
  would print such a record is not modelled.
- `Report.ShowUpgradeInfo` requires a candidate that is a version of the
  package. The code dereferences it without a check (line 189), so a
  missing candidate is not modelled.
- `describe_state`'s asserts are the precondition `Report.StatesInRange`.
  An assertion failure aborts the program, and that abort is not modelled.
- Command-line parsing and `_config` lookups are left out: the options are
  booleans in `Report.Config` and `Driver.Invocation`. Error messages and
  `_error->DumpErrors()` are left out too.
- `APT::PackageList::FromString` (pattern and regex matching) is a call into
  APT. Each pattern's matches, and whether they were matched literally, are
  inputs.
- The order of `cache->PkgBegin()` enumeration belongs to the cache. It is
  the order of `Invocation.all`.
- Strings stand for byte strings, one `char` per byte. `setw` and the
  column maxima measure `std::string::size()` in bytes. The model's `|s|`
  agrees with that only under this reading, not for strings read as Unicode.
- Output streams are left out. `cout`, `setf`/`setw` state and the
  `/dev/null` stream become returned strings. `print_only`'s effect is
  modelled; the stream mechanics are not.
- The `show_help` text is left out. Help is modelled as exit 0 with no
  report output.
