/** main: the consistency checks on the options, the exit codes, and the
    loop that reports every package, or the matches of every pattern. */
module Driver {
  import opened Cache
  import opened Report

  /** The packages one command-line pattern matched, and whether it was
      matched literally (a package-set constructor other than REGEX). */
  datatype PatternMatch = PatternMatch(literal: bool, packages: seq<Package>)

  /** One run: whether the command line parsed, whether help was asked for,
      the options, whether the cache could be opened, the pattern matches in
      argument order (empty when no name was given) and the cache's packages
      in its own order. */
  datatype Invocation = Invocation(
    parsed: bool,
    help: bool,
    cfg: Config,
    cacheLoaded: bool,
    patterns: seq<PatternMatch>,
    all: seq<Package>)

  /** The two option conflicts main reports as errors. */
  predicate ArgumentError(hasNames: bool, cfg: Config)
  {
    (hasNames && cfg.noHold) || (!hasNames && cfg.regexAll)
  }

  /** Whether a pattern's matches are reported even when not installed. */
  function ShowUninstalled(cfg: Config, m: PatternMatch): bool
  {
    cfg.regexAll || m.literal
  }

  /** The reports of a list of packages, in order. */
  function Reports(ps: seq<Package>, cfg: Config, showUninstalled: bool): string
    requires AllPrintable(ps, cfg, showUninstalled)
  {
    if ps == [] then ""
    else Reports(ps[..|ps| - 1], cfg, showUninstalled) +
         ShowUpgradeInfo(ps[|ps| - 1], cfg, showUninstalled).Text()
  }

  predicate AllPrintable(ps: seq<Package>, cfg: Config, showUninstalled: bool)
  {
    forall i :: 0 <= i < |ps| ==> Printable(ps[i], cfg, showUninstalled)
  }

  predicate MatchesPrintable(ms: seq<PatternMatch>, cfg: Config)
  {
    forall i :: 0 <= i < |ms| ==> AllPrintable(ms[i].packages, cfg, ShowUninstalled(cfg, ms[i]))
  }

  /** What the report loop needs: the cache's packages when no name was
      given, otherwise the matches of every pattern. */
  predicate ReportReady(inv: Invocation)
  {
    if inv.patterns == [] then AllPrintable(inv.all, inv.cfg, false)
    else MatchesPrintable(inv.patterns, inv.cfg)
  }

  /** The checks main makes before it reports anything all passed. */
  predicate Proceeds(inv: Invocation)
  {
    inv.parsed && !inv.help && !ArgumentError(inv.patterns != [], inv.cfg) && inv.cacheLoaded
  }

  /** The reports of the matches of every pattern, pattern by pattern. */
  function PatternReports(ms: seq<PatternMatch>, cfg: Config): string
    requires MatchesPrintable(ms, cfg)
  {
    if ms == [] then ""
    else
      var m := ms[|ms| - 1];
      PatternReports(ms[..|ms| - 1], cfg) + Reports(m.packages, cfg, ShowUninstalled(cfg, m))
  }

  /** Everything the report loop prints once the checks have passed. */
  function ReportText(inv: Invocation): string
    requires ReportReady(inv)
  {
    if inv.patterns == [] then Reports(inv.all, inv.cfg, false)
    else PatternReports(inv.patterns, inv.cfg)
  }

  /** main: exit 1 when the command line does not parse, 0 after help, 2 for
      an option conflict or a cache that did not open, otherwise the report
      and 0. */
  method Run(inv: Invocation) returns (code: nat, out: string)
    requires Proceeds(inv) ==> ReportReady(inv)
    ensures code == 1 <==> !inv.parsed
    ensures code == 2 <==>
              inv.parsed && !inv.help &&
              (ArgumentError(inv.patterns != [], inv.cfg) || !inv.cacheLoaded)
    ensures code == 0 <==>
              inv.parsed && (inv.help ||
                             (!ArgumentError(inv.patterns != [], inv.cfg) && inv.cacheLoaded))
    ensures out == if code == 0 && !inv.help then ReportText(inv) else ""
  {
    if !inv.parsed {
      return 1, "";
    }
    if inv.help {
      return 0, "";
    }
    var cfg := inv.cfg;
    var hasNames := |inv.patterns| > 0;
    var pendingError := false;
    if hasNames && cfg.noHold {
      pendingError := true;
    }
    if !hasNames && cfg.regexAll {
      pendingError := true;
    }
    if !inv.cacheLoaded || pendingError {
      return 2, "";
    }
    out := "";
    if !hasNames {
      out := ReportAll(inv.all, cfg, false);
    } else {
      var regexAll := cfg.regexAll;
      for i := 0 to |inv.patterns|
        invariant out == PatternReports(inv.patterns[..i], cfg)
      {
        var m := inv.patterns[i];
        var showUninstalled := regexAll || m.literal;
        assert inv.patterns[..i + 1][..i] == inv.patterns[..i];
        var more := ReportAll(m.packages, cfg, showUninstalled);
        out := out + more;
      }
      assert inv.patterns[..|inv.patterns|] == inv.patterns;
    }
    code := 0;
  }

  /** The loop over one list of packages. */
  method ReportAll(ps: seq<Package>, cfg: Config, showUninstalled: bool) returns (out: string)
    requires AllPrintable(ps, cfg, showUninstalled)
    ensures out == Reports(ps, cfg, showUninstalled)
  {
    out := "";
    for i := 0 to |ps|
      invariant out == Reports(ps[..i], cfg, showUninstalled)
    {
      assert ps[..i + 1][..i] == ps[..i];
      out := out + ShowUpgradeInfo(ps[i], cfg, showUninstalled).Text();
    }
    assert ps[..|ps|] == ps;
  }

  /** The packages that get past the hold and uninstalled filters. */
  function Unsuppressed(ps: seq<Package>, cfg: Config, showUninstalled: bool): (r: seq<Package>)
    ensures |r| <= |ps|
    ensures forall i :: 0 <= i < |r| ==> r[i] in ps && !Suppressed(r[i], cfg, showUninstalled)
    ensures forall p :: p in ps && !Suppressed(p, cfg, showUninstalled) ==> p in r
  {
    if ps == [] then []
    else
      var p := ps[|ps| - 1];
      Unsuppressed(ps[..|ps| - 1], cfg, showUninstalled) +
      (if Suppressed(p, cfg, showUninstalled) then [] else [p])
  }

  /** Filtered-out packages add nothing to the report: it is the report of
      the packages that pass the filters, in the same order. */
  lemma {:induction false} SuppressedPrintNothing(ps: seq<Package>, cfg: Config, showUninstalled: bool)
    requires AllPrintable(ps, cfg, showUninstalled)
    ensures AllPrintable(Unsuppressed(ps, cfg, showUninstalled), cfg, showUninstalled)
    ensures Reports(ps, cfg, showUninstalled) == Reports(Unsuppressed(ps, cfg, showUninstalled), cfg, showUninstalled)
  {
    if ps != [] {
      var init := ps[..|ps| - 1];
      var p := ps[|ps| - 1];
      var kept := Unsuppressed(init, cfg, showUninstalled);
      SuppressedPrintNothing(init, cfg, showUninstalled);
      var text := ShowUpgradeInfo(p, cfg, showUninstalled).Text();
      assert Reports(ps, cfg, showUninstalled) == Reports(init, cfg, showUninstalled) + text;
      if Suppressed(p, cfg, showUninstalled) {
        assert text == "";
        assert Unsuppressed(ps, cfg, showUninstalled) == kept;
      } else {
        var grown := kept + [p];
        assert Unsuppressed(ps, cfg, showUninstalled) == grown;
        assert grown[..|grown| - 1] == kept;
        assert AllPrintable(grown, cfg, showUninstalled);
        assert Reports(grown, cfg, showUninstalled) == Reports(kept, cfg, showUninstalled) + text;
      }
    }
  }

  /** Without package names every package is reported with show_uninstalled
      off, so packages that are not installed never appear. */
  lemma WithoutNamesOnlyInstalled(inv: Invocation)
    requires inv.patterns == [] && AllPrintable(inv.all, inv.cfg, false)
    ensures var kept := Unsuppressed(inv.all, inv.cfg, false);
            AllPrintable(kept, inv.cfg, false) &&
            ReportText(inv) == Reports(kept, inv.cfg, false) &&
            forall i :: 0 <= i < |kept| ==> Installed(kept[i])
  {
    SuppressedPrintNothing(inv.all, inv.cfg, false);
  }

  /** No-Hold cannot be combined with package names, nor Regex-All used
      without them: either conflict ends the run with exit code 2 and no
      report, whatever the cache holds. */
  method ConflictingOptions(inv: Invocation) returns (code: nat, out: string)
    requires inv.parsed && !inv.help
    requires (inv.patterns != [] && inv.cfg.noHold) || (inv.patterns == [] && inv.cfg.regexAll)
    ensures code == 2 && out == ""
  {
    code, out := Run(inv);
  }
}
