# Update check and tile geometry, modelled in Dafny

This project models two pieces of the image-enhancing utility.

**The GitHub update check** (`GitHubUpdateStandard/UpdateChecker.cs`). An
`UpdateChecker` holds the running version, the branch to follow and whether
prereleases are ignored. `CheckUpdate` lists the repository's releases and
picks the first one that passes a filter:

- the release targets the configured branch;
- it is not a prerelease, unless prereleases are allowed;
- under a `Major` lock its version lies strictly between the current version
  and the next major line; under a `Minor` lock, strictly between the current
  version and the next minor line.

Every other `locked` value (`None`, `Patch`, `Fail`) uses the unlocked filter.
The chosen release is stored in `LatestRelease`, and `RenderReleaseNotes`
later reads it. The result classifies the chosen version against the current
one with a priority chain: `Major`, then `Minor`, then `Patch`, else `None`.
A failed fetch stores the exception message in `ErrorMessage`, returns
`Fail`, and keeps the previous `LatestRelease`.

The model is the class `UpdateCheck.UpdateChecker` in `update_checker.dfy`.
Its configuration is kept in `const` fields, and `LatestRelease` and
`ErrorMessage` are mutable fields. `CheckUpdate` is a method whose search
loop is proved to compute the pure specification `Select`. The properties of
the selection are lemmas about `Select`, `FirstAccepted` and `Classify`.
Versions are (major, minor, patch) triples ordered lexicographically
(`semver.dfy`). `new SemVersion(M + 1)` is `NextMajor`, that is (M+1, 0, 0),
and `new SemVersion(M, m + 1)` is `NextMinor`, that is (M, m+1, 0).

Details the model keeps as the code has them:

- The `Patch` test (line 103) compares the minor components but not the major
  ones. Unlocked, a release 0.2.5 on the branch is reported as a `Patch` update
  of 1.2.3 (`PatchIgnoresMajor`). Under either lock the window forces an equal
  major, so this cannot happen there.
- For versions without a prerelease label (the model's plain triples), a
  release selected under a `Minor` lock is always classified `Patch`, and one
  selected under a `Major` lock is always `Minor` or `Patch`.
- The public constructor checks `version` twice (lines 48 and 49, the second
  time under the name "branch"), so an empty branch is accepted. `Create` and
  `ArgumentError` follow the code here.
- A failed fetch does change state: it writes `ErrorMessage`, though it keeps
  `LatestRelease`.

**Tile geometry** (`IEU.Core/Helper.cs`), in `tile_geometry.dfy`:

- `GetGoodDimensions` rounds each dimension up to a multiple of its tile size.
  It is modelled for any sign with C#'s truncating remainder (`CsRem`), so for
  a negative size the result overshoots the next multiple, as the code does.
  A zero tile size is the `DivideByZeroException` the code throws, returned
  as `Failure(DivideByZero)`. In the four-argument `GetTilesSize` only a zero
  `tileHeight` fails this way; a zero `tileWidth` goes through, because
  `tileWidth` is never read.
- `GetTilesSize(width, height, maxTileResolution)` is the method
  `GetTilesSize`, with its `while` loop and its two bounded inner `for` loops.
  It is proved to compute the recursive specification `Tiles`. `Step` is one
  pass of the loop, and `Advance` is one inner `for` loop. `Advance` always
  increments at least once, so the fallback that adds one when the count did
  not move never fires.
- The four-argument `GetTilesSize` divides both sizes by `tileHeight`, as
  written (see Findings).

`UpdateCheck.Scenarios` drives a checker on version 1.5.0 of "master" through
four cases: a new major release; a failed fetch that keeps the selection; an
ignored prerelease; and an empty list.

## Model

| member | source | states |
|---|---|---|
| `SemVer.Less` | GitHubUpdateStandard/UpdateChecker.cs:74-75 | the `<` and `>` of versions: a smaller version differs and has no larger major, and between different majors the major alone decides |
| `SemVer.NextMajor` | GitHubUpdateStandard/UpdateChecker.cs:70 | the major-lock bound exceeds the current version, and a version lies below it exactly when its major is at most the current major |
| `SemVer.NextMinor` | GitHubUpdateStandard/UpdateChecker.cs:79 | the minor-lock bound exceeds the current version, and a version lies below it exactly when it is on an earlier major line, or on the same major line with minor at most the current minor |
| `SemVer.LessIsStrictTotalOrder` | GitHubUpdateStandard/UpdateChecker.cs:74-75 | the version order used by `>` and `<` is irreflexive, transitive, total and asymmetric |
| `UpdateCheck.LockedVersion` | GitHubUpdateStandard/UpdateChecker.cs:66-91 | only `Major` and `Minor` set a bound, and it lies above the current version; under `Major` a version is below it exactly when its major is at most the current one, under `Minor` exactly when it is on an earlier major line or on the same line with minor at most the current one |
| `UpdateCheck.Accepts` | GitHubUpdateStandard/UpdateChecker.cs:71-90 | an accepted release targets the branch and is no prerelease when prereleases are ignored; under a lock its version is neither the current version nor the bound |
| `UpdateCheck.FirstAccepted` | GitHubUpdateStandard/UpdateChecker.cs:71-90 | `FirstOrDefault`: the index found is accepted by the filter (or is the end of the list), and no earlier release is accepted |
| `UpdateCheck.Select` | GitHubUpdateStandard/UpdateChecker.cs:71-92 | `FirstOrDefault` with the lock's filter: a selected release is in the list and passes the filter, and nothing is selected exactly when no release passes it |
| `UpdateCheck.Outcome` | GitHubUpdateStandard/UpdateChecker.cs:94-106 | a successful check never returns Fail; it returns None when nothing is selected, and for a selection newer than the current version never None |
| `UpdateCheck.SelectIsFirstMatch` | GitHubUpdateStandard/UpdateChecker.cs:71-94 | the selection is absent exactly when no release passes the active filter; otherwise it is the release at some index k that passes the filter, and no release before k passes it |
| `UpdateCheck.SelectConcat` | GitHubUpdateStandard/UpdateChecker.cs:71-90 | selection follows list order, not version order: over two lists in a row, a match in the first list wins, and otherwise the second list decides |
| `UpdateCheck.SelectRespectsBranchAndPrereleases` | GitHubUpdateStandard/UpdateChecker.cs:71-90 | under every lock, a selected release targets the configured branch, and it is not a prerelease when prereleases are ignored |
| `UpdateCheck.MajorLockWindow` | GitHubUpdateStandard/UpdateChecker.cs:69-76 | with `locked == Major`, a selected version satisfies current < v < (Major+1, 0, 0), both bounds strict; the result is then Minor or Patch, never Major, and None when nothing is selected |
| `UpdateCheck.MinorLockWindow` | GitHubUpdateStandard/UpdateChecker.cs:78-85 | with `locked == Minor`, a selected version satisfies current < v < (Major, Minor+1, 0); the result is then Patch, and otherwise None |
| `UpdateCheck.OtherLocksAreUnlocked` | GitHubUpdateStandard/UpdateChecker.cs:87-91 | `locked` values None, Patch and Fail select exactly what the unlocked filter selects, and nothing is selected only when no release is on the branch with an allowed prerelease flag |
| `UpdateCheck.Classify` | GitHubUpdateStandard/UpdateChecker.cs:99-106 | never Fail; Major iff the major is higher; Minor iff the major is equal and the minor higher; Patch iff the major is not higher, the minor is equal and the patch is higher; a strictly newer version is never None, and an older-or-equal one is only ever classified Patch, and only from a lower major |
| `UpdateCheck.ClassifyPrecedence` | GitHubUpdateStandard/UpdateChecker.cs:99-106 | against 1.2.3, the versions 2.0.0, 1.3.0, 1.2.4 and 1.2.3 classify as Major, Minor, Patch and None |
| `UpdateCheck.PatchIgnoresMajor` | GitHubUpdateStandard/UpdateChecker.cs:103-104 | 0.2.5 is older than 1.2.3, yet it classifies as Patch, because the patch test does not compare majors |
| `UpdateCheck.ArgumentError` | GitHubUpdateStandard/UpdateChecker.cs:46-49 | the arguments are refused exactly when owner, name or version is empty; the first empty one among owner, name and version, in that order, is reported; "branch" is never reported |
| `UpdateCheck.UpdateChecker.constructor` | GitHubUpdateStandard/UpdateChecker.cs:27-42 | stores owner, name, version, branch, prerelease policy and tag parser; no release is stored yet and the error message is empty |
| `UpdateCheck.UpdateChecker.Create` | GitHubUpdateStandard/UpdateChecker.cs:44-52 | the first empty argument is reported, then an unparsable version; otherwise a fresh checker holds the parsed version and the given configuration |
| `UpdateCheck.UpdateChecker.CheckUpdate` | GitHubUpdateStandard/UpdateChecker.cs:54-107 | a failed fetch returns Fail, stores the exception message and leaves `LatestRelease` unchanged; a successful one sets `LatestRelease` to the first release passing the lock's filter and returns its classification (None when nothing qualifies), leaving `ErrorMessage` unchanged |
| `UpdateCheck.UpdateChecker.CheckUpdateTwice` | GitHubUpdateStandard/UpdateChecker.cs:71-94 | two checks over the same list return the same result and leave the same selection: nothing depends on the previous `LatestRelease` |
| `UpdateCheck.UpdateChecker.RenderReleaseNotes` | GitHubUpdateStandard/UpdateChecker.cs:109-114 | fails with InvalidOperation exactly when no release is stored; otherwise it hands on the stored release's body |
| `TileGeometry.CsDiv` | IEU.Core/Helper.cs:155-156 | C# division: the magnitude of the quotient is the floor of the magnitudes' quotient, and its sign is the product of the operands' signs (or it is zero) |
| `TileGeometry.CsRem` | IEU.Core/Helper.cs:109-113 | C# remainder: a == b * (a / b) + a % b, the remainder is smaller than the divisor in magnitude, and it has the sign of a |
| `TileGeometry.RoundUp` | IEU.Core/Helper.cs:109-113 | the result leaves no remainder; it equals the input exactly when the input had no remainder; for v >= 0, t > 0 it lies in [v, v + t); for negative v with a remainder and t > 0 it lies in (v + t, v + 2t) |
| `TileGeometry.GoodDimensions` | IEU.Core/Helper.cs:107-116 | fails with DivideByZero exactly when x or y is zero; otherwise both dimensions come back as multiples of x and y; each is unchanged exactly when it already was a multiple; for non-negative sizes and positive tiles each is at least the input and below input plus the tile size |
| `TileGeometry.Advance` | IEU.Core/Helper.cs:126-133 | the inner loop increments 1 to 5 times (at least once, so the fallback is dead); it stops at the first count that divides the size, or after 5 increments, and no count it passed over divides the size |
| `TileGeometry.Step` | IEU.Core/Helper.cs:123-147 | one pass raises exactly one count, by 1 to 5: `tilesHeight` when height/tilesHeight >= width/tilesWidth, otherwise `tilesWidth` |
| `TileGeometry.Tiles` | IEU.Core/Helper.cs:121-148 | the loop ends in a split whose counts are no smaller than where it started and at most size + 5, whose tile fits within the limit, and which is the starting split when that already fits |
| `TileGeometry.GetTilesSize` | IEU.Core/Helper.cs:118-150 | the loop terminates for width, height >= 0 and a non-negative limit; it returns the split `Tiles` defines, with both counts >= 1 and a tile within the limit, and (1, 1) when the image already fits |
| `TileGeometry.TilesFitLimit` | IEU.Core/Helper.cs:118-150 | in the code's arithmetic: counts >= 1, (height / tilesHeight) * (width / tilesWidth) <= maxTileResolution, and exactly (1, 1) when height * width <= maxTileResolution |
| `TileGeometry.TilesSizeByTile` | IEU.Core/Helper.cs:152-158 | as written: fails with DivideByZero exactly when tileHeight is zero, whatever tileWidth is; otherwise, for non-negative sizes and a positive tileHeight, each count is the number of whole tileHeight-long tiles along that side |
| `TileGeometry.TileWidthNeverRead` | IEU.Core/Helper.cs:155 | the result does not depend on tileWidth |
| `TileGeometry.TileWidthIgnored` | IEU.Core/Helper.cs:155-156 | a 100x100 image with 50x25 tiles gives (4, 4) as written, where the intended result is (2, 4); with a zero tileWidth the code still gives (4, 4) where the intended division throws |
| `TileGeometry.TilesSizeByTileIntended` | IEU.Core/Helper.cs:152-158 | corrected: fails with DivideByZero exactly when tileWidth or tileHeight is zero; otherwise the width count is the number of whole tileWidth-wide tiles, and the height count the number of whole tileHeight-high tiles |

## Left out

- Networking: building the `GitHubClient`, `_releaseClient.GetAll`, `RenderRawMarkdown` and the `async`/`Task` machinery. The fetch is an input value `FetchResult`: the list, or the exception's message. `RenderReleaseNotes` returns the markdown it would render.
- `RepositoryOwner` and `RepositoryName` are stored but not read by the model, because only the fetch uses them.
- Tag parsing: `Helper.StripInitialV` is not part of this model. It is a given total function from tag to version, fixed when the checker is built. The implicit string-to-version conversion in the constructor is a given `parseVersion` that may fail.
- Semantic-version prerelease and build-metadata precedence: versions are plain triples. With labels, a tag just below the bound passes the lock's window but reaches the bound's own component. From 1.2.3 under a `Minor` lock, "v1.3.0-rc.1" satisfies 1.2.3 < 1.3.0-rc.1 < 1.3.0 and is classified `Minor`. Under a `Major` lock from 1.x, "v2.0.0-rc.1" is classified `Major`. The GitHub prerelease flag is separate from the tag's label, so ignoring prereleases does not exclude these tags.
- `MajorLockWindow`: "never `Major`" holds only for unlabelled versions, because of the prerelease precedence above.
- `MinorLockWindow`: "always `Patch`" holds only for unlabelled versions, because of the prerelease precedence above.
- Null strings, because Dafny strings cannot be null. `ArgumentNotNullOrEmptyString` is modelled only as its emptiness test.
- Default argument values (`branch = "master"`, `ignorePreleases = true`, `locked = UpdateType.None`): every argument is explicit.
- All C# 32-bit overflow: integers are mathematical. This includes `Major + 1`, `Minor + 1`, `width + (x - width % x)`, the product in the loop guard and the count increments. It also includes the `OverflowException` that .NET throws for `int.MinValue / -1` and `int.MinValue % -1`. Those can arise in `GoodDimensions` (x or y equal to -1) and in `TilesSizeByTile` (tileHeight equal to -1), where `CsDiv` and `CsRem` return a value instead.
- `GetTilesSize`: negative width or height is not modelled (the sizes are `nat`), and the method requires a non-negative `maxTileResolution`. With a negative limit the guard stays true once the tile extent has dropped to 0, so in mathematical integers the loop never ends; in the source's 32-bit arithmetic the counts eventually wrap, and the run ends in a `DivideByZeroException` at line 129 or line 141, depending on which count reaches 0 first (or an `OverflowException` first in a checked build).
- `CsDiv`: models C#'s `/` on its defined domain and requires a non-zero divisor; the `DivideByZeroException` is the `Failure(DivideByZero)` of its callers `TilesSizeByTile` and `TilesSizeByTileIntended`.
- `CsRem`: models C#'s `%` on its defined domain and requires a non-zero divisor; the `DivideByZeroException` is the `Failure(DivideByZero)` of `GoodDimensions`.
- `RoundUp`: one dimension of `GetGoodDimensions`, for a non-zero tile size only; the zero case is the `Failure(DivideByZero)` of `GoodDimensions`.
- Concurrent checks sharing `LatestRelease`.
- `GetApplicationRoot` (reflection and a regular expression on a runtime path), `OpenBrowser` and `Exec` (process launching; `Exec` also calls itself unconditionally), `ConvertToMagickImage` and `ConvertToSurface` (image library calls), `RenameModelFile` (file system) and `LogMessage` (static UI state).

## Findings

| source | as written | input that shows it | evidently intended | confidence | as-written member | corrected member |
|---|---|---|---|---|---|---|
| IEU.Core/Helper.cs:155 | `tilesWidth = width / tileHeight`, leaving `tileWidth` unused | width = height = 100, tileWidth = 50, tileHeight = 25 gives (4, 4) | `width / tileWidth`, giving (2, 4) | medium; not executed | `TileGeometry.TilesSizeByTile` (with `TileGeometry.TileWidthIgnored`) | `TileGeometry.TilesSizeByTileIntended` |
