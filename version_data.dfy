/**
 * The values the version check engine reads and reports: the server's
 * version data (`VersionData`, `PlatformVersionData`), the engine's
 * `Status` and the `DisplayState` it asks the app to show.
 */
module ServerData {
  import opened Wrappers
  import opened Versions

  /** The state of the version check (`Status`). */
  datatype Status = Unknown | FetchFailure | VersionAllowed | VersionDisallowed

  /** What the app should show (`DisplayState`); a development failure carries its warning text. */
  datatype DisplayState = Clear | SuggestUpdate | ForceUpdate | DownForMaintenance | DevelopmentFailure(message: string)

  /**
   * The per-platform part of the server's data (`PlatformVersionData`).
   * The struct declares its third field as `currentVersion`, while the
   * engine reads it as `latestTestVersion`; the field is named after the
   * engine's use here.
   */
  datatype PlatformVersionData = PlatformVersionData(
    minimumVersion: Option<Version>,
    blockedVersions: Option<seq<Version>>,
    latestTestVersion: Option<Version>)

  /** The server's version data (`VersionData`); every field is optional. */
  datatype VersionData = VersionData(
    ios: Option<PlatformVersionData>,
    serverForceVersionFailure: Option<bool>,
    serverMaintenance: Option<bool>)

  /** `versionData.ios?.minimumVersion`. */
  function MinimumVersion(data: VersionData): (minimum: Option<Version>) {
    match data.ios
    case None => None
    case Some(platform) => platform.minimumVersion
  }

  /** `versionData.ios?.blockedVersions`, with a missing list read as empty (the loop then runs no iteration). */
  function BlockedVersions(data: VersionData): (blocked: seq<Version>) {
    match data.ios
    case None => []
    case Some(platform) => platform.blockedVersions.GetOr([])
  }

  /** `versionData.ios?.latestTestVersion`. */
  function LatestTestVersion(data: VersionData): (latest: Option<Version>) {
    match data.ios
    case None => None
    case Some(platform) => platform.latestTestVersion
  }
}
