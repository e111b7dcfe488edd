/**
 * The GitHub update check: pick the first published release that qualifies
 * for the configured branch, prerelease policy and lock, remember it, and
 * classify how far it is from the running version.
 *
 * The release list arrives as a value (the network fetch is outside the
 * model), and the tag parser `StripInitialV` is a function given to the
 * checker when it is built.
 */
module UpdateCheck {
  import Wrappers
  import opened SemVer

  /** The outcome of a check; `Fail` means the release list could not be fetched. */
  datatype UpdateType = None | Major | Minor | Patch | Fail

  /** The parts of a published release that the check reads. */
  datatype Release = Release(tagName: string, targetCommitish: string, prerelease: bool, body: string)

  /** What the release listing service gave back: the list, or the message of the exception it threw. */
  datatype FetchResult = Fetched(releases: seq<Release>) | FetchFailed(message: string)

  /** The checker's fixed configuration, as the filters read it. */
  datatype Config = Config(
    currentVersion: Version,
    branch: string,
    ignorePrereleases: bool,
    stripInitialV: string -> Version)

  /** Why the public constructor refused its arguments. */
  datatype ArgumentFailure = EmptyArgument(paramName: string) | UnparsableVersion

  /** Why the release notes could not be rendered. */
  datatype NotesError = InvalidOperation

  /**
   * The exclusive upper bound that `locked` puts on candidate versions: the
   * next major line for `Major`, the next minor line for `Minor`, and none for
   * every other value (the `default` branch of the switch).
   */
  function LockedVersion(current: Version, locked: UpdateType): (bound: Wrappers.Option<Version>)
    ensures bound.Some? <==> locked == Major || locked == Minor
    ensures bound.Some? ==> Less(current, bound.value)
    ensures locked == Major ==> forall w :: Less(w, bound.value) <==> w.major <= current.major
    ensures locked == Minor ==> forall w :: Less(w, bound.value) <==>
      (w.major < current.major || (w.major == current.major && w.minor <= current.minor))
  {
    match locked
    case Major => Wrappers.Some(NextMajor(current))
    case Minor => Wrappers.Some(NextMinor(current))
    case _ => Wrappers.None
  }

  /**
   * The search predicate: the release targets the configured branch, is not a
   * prerelease unless prereleases are allowed, and, under a lock, its version
   * lies strictly between the current version and the bound.
   */
  predicate Accepts(c: Config, bound: Wrappers.Option<Version>, r: Release)
    ensures Accepts(c, bound, r) ==> r.targetCommitish == c.branch && (c.ignorePrereleases ==> !r.prerelease)
    ensures Accepts(c, bound, r) && bound.Some? ==>
      c.stripInitialV(r.tagName) != c.currentVersion && c.stripInitialV(r.tagName) != bound.value
  {
    && (!r.prerelease || !c.ignorePrereleases)
    && r.targetCommitish == c.branch
    && (bound.Some? ==>
          Less(c.currentVersion, c.stripInitialV(r.tagName)) &&
          Less(c.stripInitialV(r.tagName), bound.value))
  }

  /** The index of the first accepted release, or |releases| when there is none. */
  function FirstAccepted(releases: seq<Release>, c: Config, bound: Wrappers.Option<Version>): (k: nat)
    ensures k <= |releases|
    ensures k < |releases| ==> Accepts(c, bound, releases[k])
    ensures forall j :: 0 <= j < k ==> !Accepts(c, bound, releases[j])
  {
    if releases == [] then 0
    else if Accepts(c, bound, releases[0]) then 0
    else 1 + FirstAccepted(releases[1..], c, bound)
  }

  /** `releases.FirstOrDefault(filter)` for the filter that `locked` selects. */
  function Select(releases: seq<Release>, c: Config, locked: UpdateType): (s: Wrappers.Option<Release>)
    ensures s.Some? ==> s.value in releases && Accepts(c, LockedVersion(c.currentVersion, locked), s.value)
    ensures s.None? <==>
      forall j :: 0 <= j < |releases| ==> !Accepts(c, LockedVersion(c.currentVersion, locked), releases[j])
  {
    var k := FirstAccepted(releases, c, LockedVersion(c.currentVersion, locked));
    if k < |releases| then Wrappers.Some(releases[k]) else Wrappers.None
  }

  /**
   * The priority chain of comparisons. The patch test compares the minor
   * components but not the major ones, so an older major line with the same
   * minor and a higher patch reads as `Patch`.
   */
  function Classify(current: Version, latest: Version): (t: UpdateType)
    ensures t != Fail
    ensures t == Major <==> latest.major > current.major
    ensures t == Minor <==> latest.major == current.major && latest.minor > current.minor
    ensures t == Patch <==>
      latest.major <= current.major && latest.minor == current.minor && latest.patch > current.patch
    ensures Less(current, latest) ==> t != None
    ensures t == None ==> !Less(current, latest)
    ensures !Less(current, latest) && t != None ==> t == Patch && latest.major < current.major
  {
    if latest.major > current.major then Major
    else if latest.minor > current.minor && latest.major == current.major then Minor
    else if latest.patch > current.patch && latest.minor == current.minor then Patch
    else None
  }

  /** What a successful check returns once `selected` has been stored. */
  function Outcome(c: Config, selected: Wrappers.Option<Release>): (t: UpdateType)
    ensures t != Fail
    ensures selected.None? ==> t == None
    ensures selected.Some? && Less(c.currentVersion, c.stripInitialV(selected.value.tagName)) ==> t != None
    ensures selected.Some? && t == None ==> !Less(c.currentVersion, c.stripInitialV(selected.value.tagName))
  {
    match selected
    case None => None
    case Some(r) => Classify(c.currentVersion, c.stripInitialV(r.tagName))
  }

  /**
   * The argument checks of the public constructor, in order. The fourth check
   * tests `version` again under the name "branch", so `branch` is never
   * looked at and "branch" is never reported.
   */
  function ArgumentError(owner: string, name: string, version: string, branch: string): (e: Wrappers.Option<string>)
    ensures e.None? <==> owner != [] && name != [] && version != []
    ensures e.Some? ==> e.value in {"owner", "name", "version"}
    ensures owner == [] ==> e == Wrappers.Some("owner")
    ensures owner != [] && name == [] ==> e == Wrappers.Some("name")
    ensures owner != [] && name != [] && version == [] ==> e == Wrappers.Some("version")
  {
    if owner == [] then Wrappers.Some("owner")
    else if name == [] then Wrappers.Some("name")
    else if version == [] then Wrappers.Some("version")
    else if version == [] then Wrappers.Some("branch")
    else Wrappers.None
  }

  // ---------------------------------------------------------------------------
  // Properties of the selection and the classification
  // ---------------------------------------------------------------------------

  /** The selection is the first accepted release, and it is absent only when none is accepted. */
  lemma SelectIsFirstMatch(releases: seq<Release>, c: Config, locked: UpdateType)
    ensures Select(releases, c, locked).None? <==>
      forall j :: 0 <= j < |releases| ==> !Accepts(c, LockedVersion(c.currentVersion, locked), releases[j])
    ensures Select(releases, c, locked).Some? ==>
      exists k :: 0 <= k < |releases| && releases[k] == Select(releases, c, locked).value &&
        Accepts(c, LockedVersion(c.currentVersion, locked), releases[k]) &&
        forall j :: 0 <= j < k ==> !Accepts(c, LockedVersion(c.currentVersion, locked), releases[j])
  {
    var bound := LockedVersion(c.currentVersion, locked);
    var k := FirstAccepted(releases, c, bound);
    if k < |releases| {
      assert releases[k] == Select(releases, c, locked).value;
    }
  }

  /**
   * Selection follows list order: over two lists in a row, a match in the
   * first list wins, and otherwise the second list decides.
   */
  lemma SelectConcat(first: seq<Release>, second: seq<Release>, c: Config, locked: UpdateType)
    ensures Select(first + second, c, locked) ==
      if Select(first, c, locked).Some? then Select(first, c, locked) else Select(second, c, locked)
  {
    var bound := LockedVersion(c.currentVersion, locked);
    var k1, k2 := FirstAccepted(first, c, bound), FirstAccepted(second, c, bound);
    var k := FirstAccepted(first + second, c, bound);
    if k1 < |first| {
      assert (first + second)[k1] == first[k1];
      assert k == k1;
    } else {
      assert forall j :: 0 <= j < |first| ==> (first + second)[j] == first[j];
      if k2 < |second| {
        assert (first + second)[|first| + k2] == second[k2];
        assert forall j :: 0 <= j < k2 ==> (first + second)[|first| + j] == second[j];
        assert k == |first| + k2;
      } else {
        assert forall j :: 0 <= j < |second| ==> (first + second)[|first| + j] == second[j];
        assert k == |first + second|;
      }
    }
  }

  /** Whatever the lock, a selected release is on the configured branch and honours the prerelease policy. */
  lemma SelectRespectsBranchAndPrereleases(releases: seq<Release>, c: Config, locked: UpdateType)
    requires Select(releases, c, locked).Some?
    ensures Select(releases, c, locked).value.targetCommitish == c.branch
    ensures c.ignorePrereleases ==> !Select(releases, c, locked).value.prerelease
  {
  }

  /** Under a major lock the selection lies strictly inside (current, next major), so the result is Minor or Patch. */
  lemma MajorLockWindow(releases: seq<Release>, c: Config)
    ensures var s := Select(releases, c, Major);
      && (s.Some? ==>
            Less(c.currentVersion, c.stripInitialV(s.value.tagName)) &&
            Less(c.stripInitialV(s.value.tagName), NextMajor(c.currentVersion)))
      && (s.Some? ==> Outcome(c, s) in {Minor, Patch})
      && (s.None? ==> Outcome(c, s) == None)
      && Outcome(c, s) != Major
  {
  }

  /** Under a minor lock the selection lies strictly inside (current, next minor), so the result is Patch. */
  lemma MinorLockWindow(releases: seq<Release>, c: Config)
    ensures var s := Select(releases, c, Minor);
      && (s.Some? ==>
            Less(c.currentVersion, c.stripInitialV(s.value.tagName)) &&
            Less(c.stripInitialV(s.value.tagName), NextMinor(c.currentVersion)))
      && (s.Some? ==> Outcome(c, s) == Patch)
      && Outcome(c, s) in {Patch, None}
  {
  }

  /** `locked` values None, Patch and Fail all fall to the unlocked filter. */
  lemma OtherLocksAreUnlocked(releases: seq<Release>, c: Config, locked: UpdateType)
    requires locked != Major && locked != Minor
    ensures Select(releases, c, locked) == Select(releases, c, None)
    ensures Select(releases, c, locked).None? <==>
      forall j :: 0 <= j < |releases| ==>
        !(releases[j].targetCommitish == c.branch && (!releases[j].prerelease || !c.ignorePrereleases))
  {
  }

  /** Against 1.2.3: a new major, a new minor, a new patch and the same version. */
  lemma ClassifyPrecedence()
    ensures Classify(Version(1, 2, 3), Version(2, 0, 0)) == Major
    ensures Classify(Version(1, 2, 3), Version(1, 3, 0)) == Minor
    ensures Classify(Version(1, 2, 3), Version(1, 2, 4)) == Patch
    ensures Classify(Version(1, 2, 3), Version(1, 2, 3)) == None
  {
  }

  /** The patch test ignores the major component: 0.2.5 is reported as a Patch update of 1.2.3. */
  lemma PatchIgnoresMajor()
    ensures Less(Version(0, 2, 5), Version(1, 2, 3))
    ensures Classify(Version(1, 2, 3), Version(0, 2, 5)) == Patch
  {
  }

  // ---------------------------------------------------------------------------
  // The checker object
  // ---------------------------------------------------------------------------

  class UpdateChecker {
    const RepositoryOwner: string
    const RepositoryName: string
    const CurrentVersion: Version
    const RepositoryBranch: string
    const IgnorePrereleases: bool
    /** The tag parser used on every release tag. */
    const StripInitialV: string -> Version

    /** The release the last successful check selected, if any. */
    var LatestRelease: Wrappers.Option<Release>
    var ErrorMessage: string

    function Configuration(): Config {
      Config(CurrentVersion, RepositoryBranch, IgnorePrereleases, StripInitialV)
    }

    /** Store the configuration; nothing has been selected yet and there is no error. */
    constructor (owner: string, name: string, version: Version, branch: string,
                 ignorePrereleases: bool, stripInitialV: string -> Version)
      ensures RepositoryOwner == owner && RepositoryName == name
      ensures CurrentVersion == version && RepositoryBranch == branch
      ensures IgnorePrereleases == ignorePrereleases && StripInitialV == stripInitialV
      ensures LatestRelease == Wrappers.None && ErrorMessage == ""
    {
      RepositoryOwner := owner;
      RepositoryName := name;
      CurrentVersion := version;
      RepositoryBranch := branch;
      IgnorePrereleases := ignorePrereleases;
      StripInitialV := stripInitialV;
      LatestRelease := Wrappers.None;
      ErrorMessage := "";
    }

    /**
     * The public constructor: reject empty owner, name or version (in that
     * order), then parse the version text with `parseVersion`.
     */
    static method Create(owner: string, name: string, version: string, branch: string,
                         ignorePrereleases: bool,
                         parseVersion: string -> Wrappers.Option<Version>,
                         stripInitialV: string -> Version)
      returns (r: Wrappers.Result<UpdateChecker, ArgumentFailure>)
      ensures ArgumentError(owner, name, version, branch).Some? ==>
        r == Wrappers.Failure(EmptyArgument(ArgumentError(owner, name, version, branch).value))
      ensures ArgumentError(owner, name, version, branch).None? && parseVersion(version).None? ==>
        r == Wrappers.Failure(UnparsableVersion)
      ensures r.Success? <==>
        ArgumentError(owner, name, version, branch).None? && parseVersion(version).Some?
      ensures r.Success? ==>
        && fresh(r.value)
        && r.value.RepositoryOwner == owner && r.value.RepositoryName == name
        && r.value.CurrentVersion == parseVersion(version).value
        && r.value.RepositoryBranch == branch
        && r.value.IgnorePrereleases == ignorePrereleases
        && r.value.StripInitialV == stripInitialV
        && r.value.LatestRelease == Wrappers.None && r.value.ErrorMessage == ""
    {
      var e := ArgumentError(owner, name, version, branch);
      if e.Some? {
        return Wrappers.Failure(EmptyArgument(e.value));
      }
      var v := parseVersion(version);
      if v.None? {
        return Wrappers.Failure(UnparsableVersion);
      }
      var checker := new UpdateChecker(owner, name, v.value, branch, ignorePrereleases, stripInitialV);
      r := Wrappers.Success(checker);
    }

    /**
     * One update check. A failed fetch records its message and returns Fail,
     * leaving the previous selection in place. Otherwise the first release
     * accepted by the lock's filter replaces the stored selection, and the
     * result classifies it against the current version.
     */
    method CheckUpdate(fetch: FetchResult, locked: UpdateType) returns (result: UpdateType)
      modifies this`LatestRelease, this`ErrorMessage
      ensures fetch.FetchFailed? ==>
        && result == Fail
        && ErrorMessage == fetch.message
        && LatestRelease == old(LatestRelease)
      ensures fetch.Fetched? ==>
        && LatestRelease == Select(fetch.releases, Configuration(), locked)
        && result == Outcome(Configuration(), LatestRelease)
        && ErrorMessage == old(ErrorMessage)
    {
      if fetch.FetchFailed? {
        ErrorMessage := fetch.message;
        return Fail;
      }
      var releases := fetch.releases;
      var lockedVersion: Wrappers.Option<Version>;
      match locked {
        case Major => lockedVersion := Wrappers.Some(NextMajor(CurrentVersion));
        case Minor => lockedVersion := Wrappers.Some(NextMinor(CurrentVersion));
        case _ => lockedVersion := Wrappers.None;
      }
      // FirstOrDefault
      var i := 0;
      while i < |releases| && !Accepts(Configuration(), lockedVersion, releases[i])
        invariant 0 <= i <= |releases|
        invariant forall j :: 0 <= j < i ==> !Accepts(Configuration(), lockedVersion, releases[j])
      {
        i := i + 1;
      }
      LatestRelease := if i < |releases| then Wrappers.Some(releases[i]) else Wrappers.None;

      if LatestRelease.None? {
        return None;
      }
      var latestVersion := StripInitialV(LatestRelease.value.tagName);
      if latestVersion.major > CurrentVersion.major {
        return Major;
      }
      if latestVersion.minor > CurrentVersion.minor && latestVersion.major == CurrentVersion.major {
        return Minor;
      }
      if latestVersion.patch > CurrentVersion.patch && latestVersion.minor == CurrentVersion.minor {
        return Patch;
      }
      return None;
    }

    /**
     * The markdown that would be handed to the renderer: the body of the
     * stored release, or InvalidOperation when nothing is stored.
     */
    method RenderReleaseNotes() returns (r: Wrappers.Result<string, NotesError>)
      ensures r.Failure? <==> LatestRelease.None?
      ensures LatestRelease.Some? ==> r == Wrappers.Success(LatestRelease.value.body)
    {
      if LatestRelease.None? {
        return Wrappers.Failure(InvalidOperation);
      }
      r := Wrappers.Success(LatestRelease.value.body);
    }

    /**
     * Two checks over the same list agree: the outcome and the stored
     * selection depend only on the list and the configuration.
     */
    method CheckUpdateTwice(releases: seq<Release>, locked: UpdateType) returns (first: UpdateType, second: UpdateType)
      modifies this`LatestRelease, this`ErrorMessage
      ensures first == second
      ensures LatestRelease == Select(releases, Configuration(), locked)
      ensures ErrorMessage == old(ErrorMessage)
    {
      first := CheckUpdate(Fetched(releases), locked);
      ghost var afterFirst := LatestRelease;
      second := CheckUpdate(Fetched(releases), locked);
      assert LatestRelease == afterFirst;
    }
  }

  /** A checker on version 1.5.0 of "master" meets a new major release, a failed fetch, an ignored prerelease and an empty list. */
  method Scenarios() {
    var parse := (tag: string) =>
      if tag == "v2.0.0" then Version(2, 0, 0)
      else if tag == "v1.5.1" then Version(1, 5, 1)
      else Version(0, 0, 0);
    var checker := new UpdateChecker("owner", "name", Version(1, 5, 0), "master", true, parse);
    var major := Release("v2.0.0", "master", false, "notes");
    var pre := Release("v1.5.1", "master", true, "pre");

    var r := checker.CheckUpdate(Fetched([major]), None);
    assert r == Major && checker.LatestRelease == Wrappers.Some(major);

    r := checker.CheckUpdate(FetchFailed("offline"), None);
    assert r == Fail && checker.LatestRelease == Wrappers.Some(major);

    r := checker.CheckUpdate(Fetched([pre]), None);
    assert r == None && checker.LatestRelease == Wrappers.None;

    r := checker.CheckUpdate(Fetched([]), None);
    assert r == None && checker.LatestRelease == Wrappers.None;

    var notes := checker.RenderReleaseNotes();
    assert notes.Failure?;
  }
}
