/** The per-package report: the state words of describe_state, the table of
    show_all_versions, the brief-mode cut of print_only and the decision
    chain of show_upgrade_info. */
module Report {
  import opened Cache
  import opened Table
  import opened Naming

  // ---------------------------------------------------------------------
  // describe_state

  const Selections: seq<string> := ["unknown", "install", "hold", "deinstall", "purge"]
  const Installs: seq<string> := ["ok", "reinst-required", "hold-install", "hold-reinst-required"]
  const Currents: seq<string> :=
    ["not-installed", "unpacked", "half-configured", "INVALID", "half-installed",
     "config-files", "installed", "triggers-awaited", "triggers-pending"]

  /** The three asserts of describe_state: every state indexes its table. */
  predicate StatesInRange(p: Package)
  {
    p.selectedState < |Selections| && p.instState < |Installs| && p.currentState < |Currents|
  }

  /** " <selection> <install state> <current state>". */
  function DescribeState(p: Package): (r: string)
    requires StatesInRange(p)
    ensures |r| > 0 && r[0] == ' '
  {
    " " + Selections[p.selectedState] + " " + Installs[p.instState] + " " + Currents[p.currentState]
  }

  predicate NoBlank(s: string)
  {
    forall k :: 0 <= k < |s| ==> s[k] != ' '
  }

  /** Splitting at the first blank is unambiguous when the word before it has none. */
  lemma SplitAtBlank(x: string, u: string, y: string, v: string)
    requires NoBlank(x) && NoBlank(y) && x + " " + u == y + " " + v
    ensures x == y && u == v
  {
    var s := x + " " + u;
    assert s[|x|] == ' ' && s[|y|] == ' ';
    assert x == s[..|x|] == y;
    assert u == s[|x| + 1..] == v;
  }

  lemma TablesHaveNoBlanks()
    ensures forall i :: 0 <= i < |Selections| ==> NoBlank(Selections[i])
    ensures forall i :: 0 <= i < |Installs| ==> NoBlank(Installs[i])
    ensures forall i :: 0 <= i < |Currents| ==> NoBlank(Currents[i])
  {
  }

  /** The position of the first entry equal to s, or |table| if none is. */
  function IndexOf(table: seq<string>, s: string): (k: nat)
    ensures k <= |table|
    ensures k < |table| ==> table[k] == s
    ensures forall j :: 0 <= j < k ==> table[j] != s
  {
    if table == [] then 0
    else if table[0] == s then 0
    else 1 + IndexOf(table[1..], s)
  }

  lemma SelectionsDistinct(i: nat)
    requires i < |Selections|
    ensures IndexOf(Selections, Selections[i]) == i
  {
    if i == 0 {} else if i == 1 {} else if i == 2 {} else if i == 3 {} else {}
  }

  lemma InstallsDistinct(i: nat)
    requires i < |Installs|
    ensures IndexOf(Installs, Installs[i]) == i
  {
    if i == 0 {} else if i == 1 {} else if i == 2 {} else {}
  }

  lemma CurrentsDistinct(i: nat)
    requires i < |Currents|
    ensures IndexOf(Currents, Currents[i]) == i
  {
    if i == 0 {} else if i == 1 {} else if i == 2 {} else if i == 3 {}
    else if i == 4 {} else if i == 5 {} else if i == 6 {} else if i == 7 {} else {}
  }

  /** Three blank-separated words after a leading blank read back uniquely. */
  lemma ThreeWords(a: string, b: string, c: string, a': string, b': string, c': string)
    requires NoBlank(a) && NoBlank(b) && NoBlank(a') && NoBlank(b')
    requires " " + a + " " + b + " " + c == " " + a' + " " + b' + " " + c'
    ensures a == a' && b == b' && c == c'
  {
    var t, t' := a + " " + (b + " " + c), a' + " " + (b' + " " + c');
    assert " " + a + " " + b + " " + c == " " + t;
    assert " " + a' + " " + b' + " " + c' == " " + t';
    assert t == (" " + t)[1..] == (" " + t')[1..] == t';
    SplitAtBlank(a, b + " " + c, a', b' + " " + c');
    SplitAtBlank(b, c, b', c');
  }

  /** The state line names the three states unambiguously: equal text means
      equal selection, install and current state. */
  lemma DescribeStateInjective(p: Package, q: Package)
    requires StatesInRange(p) && StatesInRange(q) && DescribeState(p) == DescribeState(q)
    ensures p.selectedState == q.selectedState
    ensures p.instState == q.instState
    ensures p.currentState == q.currentState
  {
    TablesHaveNoBlanks();
    ThreeWords(Selections[p.selectedState], Installs[p.instState], Currents[p.currentState],
               Selections[q.selectedState], Installs[q.instState], Currents[q.currentState]);
    SelectionsDistinct(p.selectedState);
    SelectionsDistinct(q.selectedState);
    InstallsDistinct(p.instState);
    InstallsDistinct(q.instState);
    CurrentsDistinct(p.currentState);
    CurrentsDistinct(q.currentState);
  }

  /** The selection-state word of a held package is "hold". */
  lemma HoldIsNamedHold()
    ensures Selections[Hold] == "hold"
  {
  }

  // ---------------------------------------------------------------------
  // show_all_versions

  /** A record the table can print: the code builds std::string cells from
      Archive() and Site(), so a source record must carry both. */
  predicate Labelled(f: PkgFile)
  {
    f.notSource || (f.archive.Some? && f.site.Some?)
  }

  /** What show_all_versions needs: a state line it can look up for an
      installed package, and printable records. */
  predicate AllVersionsPrintable(p: Package)
  {
    (p.current.Some? ==> p.current.value < |p.versions| && StatesInRange(p)) &&
    forall v, f :: 0 <= v < |p.versions| && 0 <= f < |p.versions[v].files| ==>
      Labelled(p.versions[v].files[f])
  }

  /** The header line before the table. */
  function Header(p: Package): (r: string)
    requires p.current.Some? ==> p.current.value < |p.versions| && StatesInRange(p)
    ensures |r| > 0 && r[|r| - 1] == '\n'
    ensures p.current.Some? ==> |r| > |p.fullName| && r[..|p.fullName|] == p.fullName && r[|p.fullName|] == ' '
  {
    if p.current.Some? then
      p.fullName + " " + p.versions[p.current.value].verStr + DescribeState(p) + "\n"
    else "Not installed\n"
  }

  /** One table row: name, version, archive, site. */
  function Row(name: string, ver: Version, f: PkgFile): seq<string>
    requires !f.notSource && Labelled(f)
  {
    [name, ver.verStr, f.archive.value, f.site.value]
  }

  /** The rows of one version: one per source record, in file-list order. */
  function FileRows(name: string, ver: Version, files: seq<PkgFile>): (rows: seq<seq<string>>)
    requires forall f :: 0 <= f < |files| ==> Labelled(files[f])
    ensures Rectangular(rows, 4)
  {
    if files == [] then []
    else
      var f := files[|files| - 1];
      FileRows(name, ver, files[..|files| - 1]) + (if f.notSource then [] else [Row(name, ver, f)])
  }

  /** The rows of a version list, version by version. */
  function VersionRows(name: string, vs: seq<Version>): (rows: seq<seq<string>>)
    requires forall v, f :: 0 <= v < |vs| && 0 <= f < |vs[v].files| ==> Labelled(vs[v].files[f])
    ensures Rectangular(rows, 4)
  {
    if vs == [] then []
    else
      var v := vs[|vs| - 1];
      VersionRows(name, vs[..|vs| - 1]) + FileRows(name, v, v.files)
  }

  function TableRows(p: Package): seq<seq<string>>
    requires AllVersionsPrintable(p)
  {
    VersionRows(p.fullName, p.versions)
  }

  /** Everything show_all_versions prints: the header, then the table. */
  function AllVersionsText(p: Package): string
    requires AllVersionsPrintable(p)
  {
    var rows := TableRows(p);
    Header(p) + Render(rows, Widths(rows, 4))
  }

  /** The rows of a file list are exactly the rows of its source records. */
  lemma {:induction false} FileRowsMembers(name: string, ver: Version, files: seq<PkgFile>, row: seq<string>)
    requires forall f :: 0 <= f < |files| ==> Labelled(files[f])
    ensures row in FileRows(name, ver, files) <==>
            exists f :: 0 <= f < |files| && !files[f].notSource && row == Row(name, ver, files[f])
  {
    if files != [] {
      var init := files[..|files| - 1];
      FileRowsMembers(name, ver, init, row);
      if exists f :: 0 <= f < |init| && !init[f].notSource && row == Row(name, ver, init[f]) {
        var f :| 0 <= f < |init| && !init[f].notSource && row == Row(name, ver, init[f]);
        assert files[f] == init[f];
      }
      if exists f :: 0 <= f < |files| && !files[f].notSource && row == Row(name, ver, files[f]) {
        var f :| 0 <= f < |files| && !files[f].notSource && row == Row(name, ver, files[f]);
        if f < |init| {
          assert files[f] == init[f];
        }
      }
    }
  }

  /** The table holds exactly one kind of row: version v's text with the
      archive and site of one of its source records. */
  lemma {:induction false} VersionRowsMembers(name: string, vs: seq<Version>, row: seq<string>)
    requires forall v, f :: 0 <= v < |vs| && 0 <= f < |vs[v].files| ==> Labelled(vs[v].files[f])
    ensures row in VersionRows(name, vs) <==>
            exists v, f :: 0 <= v < |vs| && 0 <= f < |vs[v].files| && !vs[v].files[f].notSource &&
                           row == Row(name, vs[v], vs[v].files[f])
  {
    if vs != [] {
      var init := vs[..|vs| - 1];
      var last := vs[|vs| - 1];
      VersionRowsMembers(name, init, row);
      FileRowsMembers(name, last, last.files, row);
      if exists v, f :: 0 <= v < |init| && 0 <= f < |init[v].files| && !init[v].files[f].notSource &&
                        row == Row(name, init[v], init[v].files[f]) {
        var v, f :| 0 <= v < |init| && 0 <= f < |init[v].files| && !init[v].files[f].notSource &&
                    row == Row(name, init[v], init[v].files[f]);
        assert vs[v] == init[v];
      }
      if exists v, f :: 0 <= v < |vs| && 0 <= f < |vs[v].files| && !vs[v].files[f].notSource &&
                        row == Row(name, vs[v], vs[v].files[f]) {
        var v, f :| 0 <= v < |vs| && 0 <= f < |vs[v].files| && !vs[v].files[f].notSource &&
                    row == Row(name, vs[v], vs[v].files[f]);
        if v < |init| {
          assert vs[v] == init[v];
        }
      }
    }
  }

  /** show_all_versions: the header, then a four-column table with one row
      per source record of every version. */
  method ShowAllVersions(p: Package) returns (out: string)
    requires AllVersionsPrintable(p)
    ensures out == AllVersionsText(p)
  {
    var table := new TablePrinter(4);
    var header := Header(p);
    for v := 0 to |p.versions|
      invariant fresh(table) && fresh(table.max)
      invariant table.Valid() && table.columns == 4
      invariant table.lines == VersionRows(p.fullName, p.versions[..v])
    {
      var ver := p.versions[v];
      assert p.versions[..v + 1][..v] == p.versions[..v];
      for f := 0 to |ver.files|
        invariant fresh(table) && fresh(table.max)
        invariant table.Valid() && table.columns == 4
        invariant table.lines == VersionRows(p.fullName, p.versions[..v]) + FileRows(p.fullName, ver, ver.files[..f])
      {
        var file := ver.files[f];
        assert ver.files[..f + 1][..f] == ver.files[..f];
        if file.notSource {
          continue;
        }
        var line := [p.fullName, ver.verStr, file.archive.value, file.site.value];
        table.Insert(line);
      }
      assert ver.files[..|ver.files|] == ver.files;
    }
    assert p.versions[..|p.versions|] == p.versions;
    MaxIsWidths(table);
    var body := table.Output();
    out := header + body;
  }

  // ---------------------------------------------------------------------
  // show_upgrade_info

  /** The report options, as the configuration holds them. */
  datatype Config = Config(
    upgradesOnly: bool,
    allVersions: bool,
    noHold: bool,
    brief: bool,
    regexAll: bool)

  /** Which branch of show_upgrade_info ran. */
  datatype Outcome =
    | NoOutput            // filtered out before anything is printed
    | NotInstalled
    | NoAvailableVersion
    | Upgradable
    | UpToDate
    | ManuallyUpgradable
    | NewerThanArchive
    | Nothing             // installed, but no branch of the chain matched

  /** What one package contributes: the branch, the all-versions block and
      the summary line. */
  datatype PackageReport = PackageReport(outcome: Outcome, table: string, line: string)
  {
    function Text(): string { table + line }
  }

  /** print_only: in brief mode the stream gets a newline after the name and
      everything after it goes to /dev/null. */
  function PrintOnly(brief: bool, name: string, rest: string): (r: string)
    ensures |name| <= |r| && r[..|name|] == name
    ensures brief ==> |r| == |name| + 1 && r[|name|] == '\n'
    ensures !brief ==> r[|name|..] == rest
  {
    if brief then name + "\n" else name + rest
  }

  predicate Suppressed(p: Package, cfg: Config, showUninstalled: bool)
  {
    (p.selectedState == Hold && cfg.noHold) || (p.current.None? && !showUninstalled)
  }

  /** The if/else chain for an installed package; the first match wins and
      there is no final else. */
  function Chain(p: Package, cfg: Config): (r: (Outcome, string))
    requires WellFormed(p) && p.current.Some?
    ensures r.0 != NoOutput && r.0 != NotInstalled
    ensures r.1 == "" <==>
              r.0 == Nothing || (cfg.upgradesOnly && r.0 in {NoAvailableVersion, UpToDate, NewerThanArchive})
  {
    var current := p.versions[p.current.value];
    var candidate := p.versions[p.candidate];
    var newer := p.versions[0];
    if |p.versions| <= 1 && |current.files| <= 1 then
      (NoAvailableVersion,
       if cfg.upgradesOnly then ""
       else p.fullName + " " + current.verStr + " installed: No available version in archive\n")
    else if candidate.id != current.id then
      (Upgradable,
       PrintOnly(cfg.brief, DisplayName(p, p.candidate),
                 " upgradable from " + current.verStr + " to " + candidate.verStr + "\n"))
    else if |current.files| > 1 then
      (UpToDate,
       if cfg.upgradesOnly then ""
       else PrintOnly(cfg.brief, DisplayName(p, p.candidate), " uptodate " + current.verStr + "\n"))
    else if newer.id != current.id then
      (ManuallyUpgradable,
       PrintOnly(cfg.brief, DisplayName(p, 0),
                 " *manually* upgradable from " + current.verStr + " to " + newer.verStr + "\n"))
    else if p.current.value + 1 < |p.versions| then
      (NewerThanArchive,
       if cfg.upgradesOnly then ""
       else PrintOnly(cfg.brief, DisplayName(p, p.candidate),
                      " " + current.verStr + " newer than version in archive\n"))
    else (Nothing, "")
  }

  /** What show_upgrade_info needs of a package: a well-formed cache entry,
      and printable records only when it gets past the filters and
      All-Versions then hands it to show_all_versions. */
  predicate Printable(p: Package, cfg: Config, showUninstalled: bool)
  {
    WellFormed(p) && (cfg.allVersions && !Suppressed(p, cfg, showUninstalled) ==> AllVersionsPrintable(p))
  }

  /** show_upgrade_info for one package. */
  function ShowUpgradeInfo(p: Package, cfg: Config, showUninstalled: bool): (r: PackageReport)
    requires Printable(p, cfg, showUninstalled)
    ensures r.outcome == NoOutput <==> Suppressed(p, cfg, showUninstalled)
    ensures r.outcome == NoOutput ==> r.table == "" && r.line == ""
    ensures r.outcome != NoOutput ==> r.table == if cfg.allVersions then AllVersionsText(p) else ""
  {
    if p.selectedState == Hold && cfg.noHold then PackageReport(NoOutput, "", "")
    else if p.current.None? && !showUninstalled then PackageReport(NoOutput, "", "")
    else
      var table := if cfg.allVersions then AllVersionsText(p) else "";
      if p.current.None? then
        PackageReport(NotInstalled, table,
               if showUninstalled || cfg.allVersions then p.fullName + " not installed\n" else "")
      else
        var (outcome, line) := Chain(p, cfg);
        PackageReport(outcome, table, line)
  }

  /** Under All-Versions, an uninstalled package whose source record has no
      archive or site is still accepted when uninstalled packages are not
      shown: it returns before show_all_versions and prints nothing. */
  lemma SkippedPackageNeedsNoLabels()
    ensures var p := Package("baz", 0, 0, 0, [Version(1, "1.0", [PkgFile(false, None, None, None)])], None, 0);
            var cfg := Config(false, true, false, false, false);
            !AllVersionsPrintable(p) && Printable(p, cfg, false) &&
            ShowUpgradeInfo(p, cfg, false) == PackageReport(NoOutput, "", "")
  {
    var p := Package("baz", 0, 0, 0, [Version(1, "1.0", [PkgFile(false, None, None, None)])], None, 0);
    assert !Labelled(p.versions[0].files[0]);
  }

  /** An uninstalled package that gets past the filters is always reported
      as not installed: the All-Versions test on that line never decides. */
  lemma NotInstalledAlwaysPrinted(p: Package, cfg: Config, showUninstalled: bool)
    requires Printable(p, cfg, showUninstalled)
    ensures var r := ShowUpgradeInfo(p, cfg, showUninstalled);
            (r.outcome == NotInstalled <==> !Suppressed(p, cfg, showUninstalled) && p.current.None?) &&
            (r.outcome == NotInstalled ==> showUninstalled && r.line == p.fullName + " not installed\n")
  {
  }

  /** The branches of the chain, each with the condition under which it is
      the one that runs. */
  lemma ChainBranches(p: Package, cfg: Config, showUninstalled: bool)
    requires Printable(p, cfg, showUninstalled) && p.current.Some? && !Suppressed(p, cfg, showUninstalled)
    ensures var o := ShowUpgradeInfo(p, cfg, showUninstalled).outcome;
            var cur := p.versions[p.current.value];
            var single := |p.versions| == 1 && |cur.files| == 1;
            var moved := p.versions[p.candidate].id != cur.id;
            (o == NoAvailableVersion <==> single) &&
            (o == Upgradable <==> !single && moved) &&
            (o == UpToDate <==> !single && !moved && |cur.files| > 1) &&
            (o == ManuallyUpgradable <==>
               !single && !moved && |cur.files| == 1 && p.versions[0].id != cur.id) &&
            (o == NewerThanArchive <==>
               !single && !moved && |cur.files| == 1 && p.versions[0].id == cur.id &&
               p.current.value + 1 < |p.versions|) &&
            (o == Nothing <==>
               !single && !moved && |cur.files| == 1 && p.versions[0].id == cur.id &&
               p.current.value + 1 == |p.versions|)
  {
  }

  /** APT numbers the versions of its cache uniquely. */
  predicate DistinctIds(p: Package)
  {
    forall i, j :: 0 <= i < j < |p.versions| ==> p.versions[i].id != p.versions[j].id
  }

  /** With unique version IDs the chain always prints something or is
      silenced by Upgrades-Only: its last branch is reached only when the
      installed version is the only one and has one file, and then the first
      branch has already run. */
  lemma {:induction false} ChainAlwaysMatches(p: Package, cfg: Config, showUninstalled: bool)
    requires Printable(p, cfg, showUninstalled) && DistinctIds(p) && p.current.Some? && !Suppressed(p, cfg, showUninstalled)
    ensures ShowUpgradeInfo(p, cfg, showUninstalled).outcome != Nothing
  {
    ChainBranches(p, cfg, showUninstalled);
    var k := p.current.value;
    if k != 0 {
      assert p.versions[0].id != p.versions[k].id;
    }
  }

  /** A candidate that differs from the installed version always yields the
      upgradable line, never the "no available version" or manual one. */
  lemma MovedCandidateIsUpgradable(p: Package, cfg: Config, showUninstalled: bool)
    requires Printable(p, cfg, showUninstalled) && p.current.Some? && !Suppressed(p, cfg, showUninstalled)
    requires p.versions[p.candidate].id != p.versions[p.current.value].id
    ensures var r := ShowUpgradeInfo(p, cfg, showUninstalled);
            var cur := p.versions[p.current.value];
            var cand := p.versions[p.candidate];
            r.outcome == Upgradable &&
            r.line == PrintOnly(cfg.brief, DisplayName(p, p.candidate),
                                " upgradable from " + cur.verStr + " to " + cand.verStr + "\n")
  {
  }

  /** The options other than No-Hold decide what is printed, never which
      branch runs. */
  lemma OutcomeIgnoresPrintOptions(p: Package, cfg: Config, cfg': Config, showUninstalled: bool)
    requires Printable(p, cfg, showUninstalled) && Printable(p, cfg', showUninstalled) && cfg.noHold == cfg'.noHold
    ensures ShowUpgradeInfo(p, cfg, showUninstalled).outcome ==
            ShowUpgradeInfo(p, cfg', showUninstalled).outcome
  {
  }

  /** Upgrades-Only silences exactly the "no available version", "uptodate"
      and "newer than version in archive" lines; the all-versions block and
      every other line stay as they are. */
  lemma UpgradesOnlyEffect(p: Package, cfg: Config, showUninstalled: bool)
    requires Printable(p, cfg, showUninstalled) && !cfg.upgradesOnly
    ensures var all := ShowUpgradeInfo(p, cfg, showUninstalled);
            var only := ShowUpgradeInfo(p, cfg.(upgradesOnly := true), showUninstalled);
            only.outcome == all.outcome && only.table == all.table &&
            only.line == if all.outcome in {NoAvailableVersion, UpToDate, NewerThanArchive} then "" else all.line
  {
  }

  /** The version whose display name heads a print_only line: the head of
      the version list for the manual upgrade, the candidate otherwise. */
  function NameTarget(p: Package, o: Outcome): nat
  {
    if o == ManuallyUpgradable then 0 else p.candidate
  }

  /** Brief mode in the chain: the same branch runs; a print_only line
      becomes its name part and a newline, a line Upgrades-Only silenced stays
      empty, the other lines stay. */
  lemma {:induction false} ChainBrief(p: Package, cfg: Config)
    requires WellFormed(p) && p.current.Some? && !cfg.brief
    ensures var (o, full) := Chain(p, cfg);
            var (o', brief) := Chain(p, cfg.(brief := true));
            o' == o &&
            (o in {NoAvailableVersion, Nothing} ==> brief == full) &&
            (o in {Upgradable, UpToDate, ManuallyUpgradable, NewerThanArchive} && full == "" ==> brief == "") &&
            (o in {Upgradable, UpToDate, ManuallyUpgradable, NewerThanArchive} && full != "" ==>
               var name := DisplayName(p, NameTarget(p, o));
               brief == name + "\n" && |full| > |name| + 1 &&
               full[..|name|] == name && full[|name|] == ' ')
  {
    var current := p.versions[p.current.value];
    var candidate := p.versions[p.candidate];
    var cur := current.verStr;
    if |p.versions| <= 1 && |current.files| <= 1 {
    } else if candidate.id != current.id {
      PrintOnlyCut(DisplayName(p, p.candidate), " upgradable from " + cur + " to " + candidate.verStr + "\n");
    } else if |current.files| > 1 {
      PrintOnlyCut(DisplayName(p, p.candidate), " uptodate " + cur + "\n");
    } else if p.versions[0].id != current.id {
      PrintOnlyCut(DisplayName(p, 0), " *manually* upgradable from " + cur + " to " + p.versions[0].verStr + "\n");
    } else if p.current.value + 1 < |p.versions| {
      PrintOnlyCut(DisplayName(p, p.candidate), " " + cur + " newer than version in archive\n");
    }
  }

  /** What print_only does to one line whose tail starts with a blank. */
  lemma PrintOnlyCut(name: string, rest: string)
    requires |rest| > 1 && rest[0] == ' '
    ensures var full := PrintOnly(false, name, rest);
            PrintOnly(true, name, rest) == name + "\n" && |full| > |name| + 1 &&
            full[..|name|] == name && full[|name|] == ' '
  {
    var full := name + rest;
    assert full[|name|] == rest[0];
  }

  /** Under Brief every line that goes through print_only is cut to the name
      part and a newline, and one Upgrades-Only silenced stays empty; the
      "not installed" and "No available version"
      lines are printed in full, and so is the all-versions block. */
  lemma BriefEffect(p: Package, cfg: Config, showUninstalled: bool)
    requires Printable(p, cfg, showUninstalled) && !cfg.brief
    ensures var full := ShowUpgradeInfo(p, cfg, showUninstalled);
            var brief := ShowUpgradeInfo(p, cfg.(brief := true), showUninstalled);
            brief.outcome == full.outcome && brief.table == full.table &&
            (full.outcome in {NoOutput, NotInstalled, NoAvailableVersion, Nothing} ==> brief.line == full.line) &&
            (full.outcome in {Upgradable, UpToDate, ManuallyUpgradable, NewerThanArchive} && full.line == "" ==>
               brief.line == "") &&
            (full.outcome in {Upgradable, UpToDate, ManuallyUpgradable, NewerThanArchive} && full.line != "" ==>
               var name := DisplayName(p, NameTarget(p, full.outcome));
               brief.line == name + "\n" && |full.line| > |name| + 1 &&
               full.line[..|name|] == name && full.line[|name|] == ' ')
  {
    if !Suppressed(p, cfg, showUninstalled) && p.current.Some? {
      ChainBrief(p, cfg);
    }
  }

  /** foo is installed at 1.0 and the candidate 1.2 comes from "stable". */
  lemma UpgradableExample()
    ensures ShowUpgradeInfo(
              Package("foo", 1, 0, 6,
                      [Version(7, "1.2", [PkgFile(false, Some("stable"), None, Some("deb.example.org"))]),
                       Version(3, "1.0", [PkgFile(true, Some("now"), None, Some(""))])],
                      Some(1), 0),
              Config(false, false, false, false, false), false)
            == PackageReport(Upgradable, "", "foo/stable" + " upgradable from " + "1.0" + " to " + "1.2" + "\n")
  {
  }

  /** bar is installed at 2.0 and no other version or file exists. */
  lemma NoAvailableExample()
    ensures ShowUpgradeInfo(
              Package("bar", 1, 0, 6, [Version(4, "2.0", [PkgFile(true, Some("now"), None, Some(""))])],
                      Some(0), 0),
              Config(false, false, false, false, false), false)
            == PackageReport(NoAvailableVersion, "", "bar" + " " + "2.0" + " installed: No available version in archive\n")
  {
  }
}
