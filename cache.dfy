/** The slice of APT's package cache that the report reads: packages, their
    versions and the package-file records that provide each version.
    Iterators and sentinels of the cache become plain sequences and indices. */
module Cache {

  datatype Option<+T> = None | Some(value: T)

  /** A package file (an index such as a Packages list or the dpkg status
      file).  Archive, codename and site may be absent in the cache. */
  datatype PkgFile = PkgFile(
    notSource: bool,
    archive: Option<string>,
    codename: Option<string>,
    site: Option<string>)

  /** A version of a package with the file records that provide it, in the
      order of the cache's file list. */
  datatype Version = Version(id: nat, verStr: string, files: seq<PkgFile>)

  /** A package as the report sees it.  `current` and `candidate` are
      positions in `versions` (the cache's version list); `candidate` is what
      the policy engine chose and is only consulted for installed packages. */
  datatype Package = Package(
    fullName: string,
    selectedState: nat,
    instState: nat,
    currentState: nat,
    versions: seq<Version>,
    current: Option<nat>,
    candidate: nat)

  /** pkgCache::State::Hold, the selection state of a held package. */
  const Hold: nat := 2

  /** A package the model accepts.  That every version was recorded from at
      least one package file is a guarantee of APT's cache.  That the
      installed version and the candidate are versions of the package is an
      assumption of the model: the policy may have no candidate, and the
      report reads it without a check. */
  predicate WellFormed(p: Package)
  {
    (forall i :: 0 <= i < |p.versions| ==> |p.versions[i].files| > 0) &&
    (p.current.Some? ==> p.current.value < |p.versions| && p.candidate < |p.versions|)
  }

  predicate Installed(p: Package)
  {
    p.current.Some?
  }
}
