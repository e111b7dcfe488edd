/**
 * The numeric core of a semantic version, as the update check uses it:
 * a (major, minor, patch) triple ordered lexicographically. Prerelease and
 * build-metadata precedence are not part of this model.
 */
module SemVer {

  datatype Version = Version(major: nat, minor: nat, patch: nat)

  /** `a < b` on versions: compare major, then minor, then patch. */
  predicate Less(a: Version, b: Version)
    ensures Less(a, b) ==> a != b && a.major <= b.major
    ensures a.major != b.major ==> (Less(a, b) <==> a.major < b.major)
  {
    || a.major < b.major
    || (a.major == b.major && a.minor < b.minor)
    || (a.major == b.major && a.minor == b.minor && a.patch < b.patch)
  }

  /** Less is a strict total order. */
  lemma LessIsStrictTotalOrder(a: Version, b: Version, c: Version)
    ensures !Less(a, a)
    ensures Less(a, b) && Less(b, c) ==> Less(a, c)
    ensures a == b || Less(a, b) || Less(b, a)
    ensures !(Less(a, b) && Less(b, a))
  {
  }

  /** `new SemVersion(v.Major + 1)`: the first version of the next major line. */
  function NextMajor(v: Version): (bound: Version)
    ensures Less(v, bound)
    ensures forall w :: Less(w, bound) <==> w.major <= v.major
  {
    Version(v.major + 1, 0, 0)
  }

  /** `new SemVersion(v.Major, v.Minor + 1)`: the first version of the next minor line. */
  function NextMinor(v: Version): (bound: Version)
    ensures Less(v, bound)
    ensures forall w :: Less(w, bound) <==>
      (w.major < v.major || (w.major == v.major && w.minor <= v.minor))
  {
    Version(v.major, v.minor + 1, 0)
  }
}
