/** my_name: the display name of a version, `FullName` or
    `FullName/<codename or archive>`. */
module Naming {
  import opened Cache

  /** The name a single package-file record gives: nothing for a NotSource
      record, else the codename if there is one, else the archive. */
  function Attribution(name: string, f: PkgFile): (r: string)
    ensures r == "" || (|r| > |name| && r[..|name| + 1] == name + "/")
  {
    if f.notSource then ""
    else if f.codename.Some? then name + "/" + f.codename.value
    else if f.archive.Some? then name + "/" + f.archive.value
    else ""
  }

  /** The display name my_name computes for version k: decided by the first
      file record of that version alone. */
  function DisplayName(p: Package, k: nat): (r: string)
    requires k < |p.versions| && |p.versions[k].files| > 0
    ensures |r| >= |p.fullName| && r[..|p.fullName|] == p.fullName
  {
    var a := Attribution(p.fullName, p.versions[k].files[0]);
    if a == "" then p.fullName else a
  }

  /** my_name as written: the loop advances the version `c`, not the file
      record `vf`, which stays on the first record of the starting version,
      and `prio` keeps its initial 0.  The policy's priority of a file is the
      parameter `priority`. */
  method MyName(p: Package, k: nat, priority: PkgFile -> int) returns (r: string)
    requires k < |p.versions| && |p.versions[k].files| > 0
    ensures r == DisplayName(p, k)
  {
    var name := p.fullName;
    var my := "";
    var prio := 0;
    var vf := p.versions[k].files[0];
    for c := k to |p.versions|
      invariant c == k ==> my == ""
      invariant c > k ==> my == Attribution(name, vf)
    {
      if vf.notSource {
        continue;
      } else if my != "" && prio >= priority(vf) {
        continue;
      } else if vf.codename.Some? {
        my := name + "/" + vf.codename.value;
      } else if vf.archive.Some? {
        my := name + "/" + vf.archive.value;
      }
    }
    r := if my == "" then name else my;
  }

  /** The display name is the full name, or the full name, a slash and a
      codename or archive of the first file record. */
  lemma DisplayNameShape(p: Package, k: nat)
    requires k < |p.versions| && |p.versions[k].files| > 0
    ensures var f := p.versions[k].files[0];
            var r := DisplayName(p, k);
            r == p.fullName ||
            (!f.notSource && f.codename.Some? && r == p.fullName + "/" + f.codename.value) ||
            (!f.notSource && f.codename.None? && f.archive.Some? && r == p.fullName + "/" + f.archive.value)
  {
  }

  /** A NotSource record never contributes; a codename wins over an archive,
      an archive is the fallback, and with neither the bare name remains. */
  lemma DisplayNamePreferences(p: Package, k: nat)
    requires k < |p.versions| && |p.versions[k].files| > 0
    ensures var f := p.versions[k].files[0];
            (f.notSource ==> DisplayName(p, k) == p.fullName) &&
            (!f.notSource && f.codename.Some? ==> DisplayName(p, k) == p.fullName + "/" + f.codename.value) &&
            (!f.notSource && f.codename.None? && f.archive.Some? ==>
               DisplayName(p, k) == p.fullName + "/" + f.archive.value) &&
            (!f.notSource && f.codename.None? && f.archive.None? ==> DisplayName(p, k) == p.fullName)
  {
  }

  /** Only the first file record of the version matters: other records,
      later versions and priorities play no part. */
  lemma FirstRecordDecides(p: Package, k: nat, q: Package, j: nat)
    requires k < |p.versions| && |p.versions[k].files| > 0
    requires j < |q.versions| && |q.versions[j].files| > 0
    requires p.fullName == q.fullName && p.versions[k].files[0] == q.versions[j].files[0]
    ensures DisplayName(p, k) == DisplayName(q, j)
  {
  }

  /** Two records of one version, "stable" at priority 100 first and
      "testing" at priority 500 second: the first record wins, whatever the
      priorities, because the loop never looks past it. */
  method HigherPriorityIgnored() returns (r: string)
    ensures r == "foo/stable"
  {
    var stable := PkgFile(false, Some("stable"), None, Some("deb.example.org"));
    var testing := PkgFile(false, Some("testing"), None, Some("deb.example.org"));
    var p := Package("foo", 1, 0, 6, [Version(1, "1.2", [stable, testing])], Some(0), 0);
    r := MyName(p, 0, f => if f == testing then 500 else 100);
  }
}
