/** Semantic version comparison and requirement matching (core/semver.cpp). */
module Semver {
  datatype Version = Version(major: nat, minor: nat, patch: nat)

  datatype Requirement =
    | Any
    | Exact(version: Version)
    | AtLeast(version: Version)
    | CompatibleMajor(version: Version)

  /** Negative, zero or positive, as compare_semver returns it. */
  function Compare(a: Version, b: Version): int {
    if a.major != b.major then if a.major < b.major then -1 else 1
    else if a.minor != b.minor then if a.minor < b.minor then -1 else 1
    else if a.patch != b.patch then if a.patch < b.patch then -1 else 1
    else 0
  }

  predicate Matches(r: Requirement, v: Version) {
    match r
    case Any => true
    case Exact(w) => Compare(v, w) == 0
    case AtLeast(w) => Compare(v, w) >= 0
    case CompatibleMajor(w) => v.major == w.major && Compare(v, w) >= 0
  }

  /** A total order on versions, and requirements that a later version of the same major cannot break. */
  lemma CompareIsTotalOrder(a: Version, b: Version, c: Version)
    ensures Compare(a, b) == -Compare(b, a) && (Compare(a, b) == 0 <==> a == b)
    ensures Compare(a, b) <= 0 && Compare(b, c) <= 0 ==> Compare(a, c) <= 0
    ensures Matches(CompatibleMajor(a), b) && Compare(b, c) <= 0 && b.major == c.major ==> Matches(CompatibleMajor(a), c)
  {
  }
}
