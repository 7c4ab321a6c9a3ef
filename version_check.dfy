/**
 * The engine `VersionCheck`: it resolves the app's own version when it is
 * created, fetches the server's version data, and decides from it a
 * `Status` and a `DisplayState`. Every assignment to either property runs
 * its `didSet` observer, which calls the app's handler; the handler calls
 * are recorded, in order, in `notifications`.
 *
 * The URL's validity (`URL(string:)`), the fetched bytes and their
 * decoding are inputs here: `PerformVersionCheck` takes the URL check as
 * a field, and the completion of the background fetch is the separate
 * method `CompleteFetch`, which receives what the fetch and the decoder
 * produced.
 */
module Engine {
  import opened Wrappers
  import opened Versions
  import opened ServerData

  /** One call of a handler: `statusHandler` with the new status, or `displayHandler` with the new display state. */
  datatype Notification = StatusChanged(status: Status) | DisplayChanged(state: DisplayState)

  /** What the background fetch delivers to the main queue: no data, or data and what decoding made of it. */
  datatype Response = NoData | Received(decoded: Option<VersionData>)

  const InvalidUrlWarning := "Invalid version check URL"
  const FetchWarning := "Could not fetch version check data from server"
  const DecodeWarning := "Could not decode server version response"
  const AppVersionWarning := "Could not fetch / parse app version string"
  const NoMinimumWarning := "No minimum version specified in server version data"

  // ---------------------------------------------------------------------
  // The handler log
  // ---------------------------------------------------------------------

  /** The status after the notifications in `log`, starting from `initial`: the last one reported. */
  function LastStatus(log: seq<Notification>, initial: Status): (status: Status)
    decreases |log|
  {
    if log == [] then initial
    else if log[|log| - 1].StatusChanged? then log[|log| - 1].status
    else LastStatus(log[..|log| - 1], initial)
  }

  /** The display state after the notifications in `log`, starting from `initial`: the last one reported. */
  function LastDisplay(log: seq<Notification>, initial: DisplayState): (state: DisplayState)
    decreases |log|
  {
    if log == [] then initial
    else if log[|log| - 1].DisplayChanged? then log[|log| - 1].state
    else LastDisplay(log[..|log| - 1], initial)
  }

  /** Reading the status after two runs of notifications is reading the second from where the first left off. */
  lemma {:induction false} LastStatusAppend(first: seq<Notification>, second: seq<Notification>, initial: Status)
    ensures LastStatus(first + second, initial) == LastStatus(second, LastStatus(first, initial))
    decreases |second|
  {
    if second == [] {
      assert first + second == first;
    } else {
      var n := |second| - 1;
      assert (first + second)[|first + second| - 1] == second[n];
      assert (first + second)[..|first + second| - 1] == first + second[..n];
      LastStatusAppend(first, second[..n], initial);
    }
  }

  /** Reading the display state after two runs of notifications is reading the second from where the first left off. */
  lemma {:induction false} LastDisplayAppend(first: seq<Notification>, second: seq<Notification>, initial: DisplayState)
    ensures LastDisplay(first + second, initial) == LastDisplay(second, LastDisplay(first, initial))
    decreases |second|
  {
    if second == [] {
      assert first + second == first;
    } else {
      var n := |second| - 1;
      assert (first + second)[|first + second| - 1] == second[n];
      assert (first + second)[..|first + second| - 1] == first + second[..n];
      LastDisplayAppend(first, second[..n], initial);
    }
  }

  // ---------------------------------------------------------------------
  // What the engine decides
  // ---------------------------------------------------------------------

  /** `try? Version(marketing:build:)` on the strings the app version fetcher reports, when both are present. */
  function ResolveAppVersion(marketing: Option<string>, build: Option<string>): (app: Option<Version>) {
    if build.Some? && marketing.Some? && FromMarketing(marketing.value, build).Ok? then
      Some(FromMarketing(marketing.value, build).value)
    else
      None
  }

  /**
   * The engine is in development mode exactly when the fetched build is
   * "0", and a resolved app version is then a development build: the two
   * branches of the initializer agree on the flag.
   */
  lemma ResolvedAppVersionIsDevelopment(marketing: Option<string>, build: Option<string>)
    ensures ResolveAppVersion(marketing, build).Some? ==>
      && WellFormed(ResolveAppVersion(marketing, build).value)
      && ResolveAppVersion(marketing, build).value.isDevelopment == (build == Some("0"))
    ensures ResolveAppVersion(marketing, build).Some? <==>
      marketing.Some? && build.Some? && FromMarketing(marketing.value, build).Ok?
  {
    if ResolveAppVersion(marketing, build).Some? {
      ParseFieldsBuild(Some(marketing.value), build);
    }
  }

  /** `blocked ~= appVersion` for some entry of the blocked list. */
  predicate IsBlocked(app: Version, blocked: seq<Version>) {
    exists i :: 0 <= i < |blocked| && Matches(blocked[i], app)
  }

  /**
   * The comparisons `validateVersion` makes on its way to a verdict are
   * defined: `<` force-unwraps both build numbers when neither side has
   * marketing components, and traps if either is nil.
   */
  predicate ComparisonsDefined(app: Version, data: VersionData) {
    || data.serverForceVersionFailure == Some(true)
    || (&& (MinimumVersion(data).Some? ==> Comparable(app, MinimumVersion(data).value))
        && (|| (MinimumVersion(data).Some? && Less(app, MinimumVersion(data).value))
            || IsBlocked(app, BlockedVersions(data))
            || LatestTestVersion(data).None?
            || Comparable(app, LatestTestVersion(data).value)))
  }

  /** The status and display state `validateVersion` settles on for a known app version, checking the rules in the source's order. */
  function Verdict(app: Version, data: VersionData): (verdict: (Status, DisplayState))
    requires ComparisonsDefined(app, data)
  {
    if data.serverForceVersionFailure == Some(true) then (VersionDisallowed, ForceUpdate)
    else if MinimumVersion(data).Some? && Less(app, MinimumVersion(data).value) then (VersionDisallowed, ForceUpdate)
    else if IsBlocked(app, BlockedVersions(data)) then (VersionDisallowed, ForceUpdate)
    else if LatestTestVersion(data).Some? && Less(app, LatestTestVersion(data).value) then (VersionAllowed, SuggestUpdate)
    else if data.serverMaintenance == Some(true) then (VersionAllowed, DownForMaintenance)
    else (VersionAllowed, Clear)
  }

  /** What `warn` reports: a development failure, and only in development mode. */
  function WarnNotifications(message: string, developmentMode: bool): (log: seq<Notification>) {
    if developmentMode then [DisplayChanged(DevelopmentFailure(message))] else []
  }

  /** The handler calls `validateVersion` makes, in order. */
  function ValidationNotifications(app: Option<Version>, data: VersionData, developmentMode: bool): (log: seq<Notification>)
    requires app.Some? ==> ComparisonsDefined(app.value, data)
  {
    match app
    case None => [StatusChanged(FetchFailure)] + WarnNotifications(AppVersionWarning, developmentMode)
    case Some(v) =>
      var warning :=
        if data.serverForceVersionFailure != Some(true) && MinimumVersion(data).None? then
          WarnNotifications(NoMinimumWarning, developmentMode)
        else [];
      var verdict := Verdict(v, data);
      warning + [StatusChanged(verdict.0), DisplayChanged(verdict.1)]
  }

  // ---------------------------------------------------------------------
  // Properties of the verdict
  // ---------------------------------------------------------------------

  /** The app is disallowed exactly when it is told to force an update; the verdict is never a failure, unknown or a warning. */
  lemma VerdictDisallowedIffForceUpdate(app: Version, data: VersionData)
    requires ComparisonsDefined(app, data)
    ensures Verdict(app, data).0 == VersionDisallowed <==> Verdict(app, data).1 == ForceUpdate
    ensures Verdict(app, data).0 == VersionAllowed || Verdict(app, data).0 == VersionDisallowed
    ensures !Verdict(app, data).1.DevelopmentFailure?
  {
  }

  /** The app is disallowed exactly when the server forces a failure, the app is below the minimum version, or a blocked pattern matches it. */
  lemma VerdictDisallowedIff(app: Version, data: VersionData)
    requires ComparisonsDefined(app, data)
    ensures Verdict(app, data).0 == VersionDisallowed <==>
      || data.serverForceVersionFailure == Some(true)
      || (MinimumVersion(data).Some? && Less(app, MinimumVersion(data).value))
      || IsBlocked(app, BlockedVersions(data))
  {
  }

  /** An update is suggested exactly when the app is not disallowed and is below the latest test version. */
  lemma VerdictSuggestsUpdateIff(app: Version, data: VersionData)
    requires ComparisonsDefined(app, data)
    ensures Verdict(app, data).1 == SuggestUpdate <==>
      && Verdict(app, data).0 != VersionDisallowed
      && LatestTestVersion(data).Some? && Less(app, LatestTestVersion(data).value)
  {
    VerdictDisallowedIff(app, data);
  }

  /** Maintenance is shown exactly when the server reports it and no other rule applies first. */
  lemma VerdictMaintenanceIff(app: Version, data: VersionData)
    requires ComparisonsDefined(app, data)
    ensures Verdict(app, data).1 == DownForMaintenance <==>
      && Verdict(app, data).0 != VersionDisallowed
      && Verdict(app, data).1 != SuggestUpdate
      && data.serverMaintenance == Some(true)
  {
    VerdictDisallowedIff(app, data);
    VerdictSuggestsUpdateIff(app, data);
  }

  /** A blocked entry that is `==` to the app version blocks it. */
  lemma BlockedVersionIsDisallowed(app: Version, data: VersionData, i: int)
    requires ComparisonsDefined(app, data)
    requires 0 <= i < |BlockedVersions(data)| && Equal(BlockedVersions(data)[i], app)
    ensures Verdict(app, data) == (VersionDisallowed, ForceUpdate)
  {
    EqualImpliesMatches(BlockedVersions(data)[i], app);
    VerdictDisallowedIff(app, data);
  }

  /** A development build of the minimum version's components is not below it, so the minimum alone never forces it to update. */
  lemma DevelopmentBuildMeetsMinimum(app: Version, minimum: Version)
    requires WellFormed(app) && WellFormed(minimum)
    requires app.isDevelopment
    requires SameComponents(app.marketingComponents, minimum.marketingComponents)
    requires Comparable(app, minimum)
    ensures !Less(app, minimum)
  {
    if minimum.isDevelopment {
      LessIff(app, minimum);
      ComponentsBelowExclusive(app.marketingComponents, minimum.marketingComponents);
    } else {
      DevelopmentBuildIsNewest(minimum, app);
      LessAsymmetric(minimum, app);
    }
  }

  /** After `validateVersion`, the status and display state last reported are the verdict, or the fetch failure when the app version is unknown. */
  lemma ValidationEndsWithVerdict(app: Option<Version>, data: VersionData, developmentMode: bool, status: Status, display: DisplayState)
    requires app.Some? ==> ComparisonsDefined(app.value, data)
    ensures app.Some? ==>
      && LastStatus(ValidationNotifications(app, data, developmentMode), status) == Verdict(app.value, data).0
      && LastDisplay(ValidationNotifications(app, data, developmentMode), display) == Verdict(app.value, data).1
    ensures app.None? ==>
      && LastStatus(ValidationNotifications(app, data, developmentMode), status) == FetchFailure
      && LastDisplay(ValidationNotifications(app, data, developmentMode), display) ==
         (if developmentMode then DevelopmentFailure(AppVersionWarning) else display)
  {
    var log := ValidationNotifications(app, data, developmentMode);
    if app.Some? {
      var verdict := Verdict(app.value, data);
      assert log[|log| - 1] == DisplayChanged(verdict.1);
      assert log[..|log| - 1][|log| - 2] == StatusChanged(verdict.0);
    } else if developmentMode {
      assert log == [StatusChanged(FetchFailure), DisplayChanged(DevelopmentFailure(AppVersionWarning))];
      assert log[..1] == [StatusChanged(FetchFailure)];
    } else {
      assert log == [StatusChanged(FetchFailure)];
    }
  }

  /** Outside development mode no warning reaches the display handler: `validateVersion` reports the status and display state once each. */
  lemma NoWarningsOutsideDevelopment(app: Option<Version>, data: VersionData)
    requires app.Some? ==> ComparisonsDefined(app.value, data)
    ensures app.Some? ==>
      ValidationNotifications(app, data, false) ==
        [StatusChanged(Verdict(app.value, data).0), DisplayChanged(Verdict(app.value, data).1)]
    ensures app.None? ==> ValidationNotifications(app, data, false) == [StatusChanged(FetchFailure)]
  {
  }

  /** The loop over the blocked versions: whether some pattern matches the app version, checked in order and stopping at the first match. */
  method FindBlocked(app: Version, blockedVersions: seq<Version>) returns (found: bool)
    ensures found == IsBlocked(app, blockedVersions)
  {
    for i := 0 to |blockedVersions|
      invariant forall j :: 0 <= j < i ==> !Matches(blockedVersions[j], app)
    {
      if Matches(blockedVersions[i], app) {
        return true;
      }
    }
    return false;
  }

  /** The two reports of a verdict, appended one at a time after a warning, are the warning and the verdict appended at once. */
  lemma VerdictReported(log: seq<Notification>, warning: seq<Notification>, status: Status, display: DisplayState)
    ensures log + warning + [StatusChanged(status)] + [DisplayChanged(display)] ==
      log + (warning + [StatusChanged(status), DisplayChanged(display)])
  {
  }

  // ---------------------------------------------------------------------
  // The engine
  // ---------------------------------------------------------------------

  /** `VersionCheck`. The handlers, the fetchers and the converter are outside the model; what the handlers receive is `notifications`. */
  class VersionCheck {
    var appVersion: Option<Version>
    var status: Status
    var displayState: DisplayState
    var lastVersionData: Option<VersionData>
    /** Whether `URL(string: url)` accepts the configured URL. */
    const urlIsValid: bool
    const developmentMode: bool
    /** The handler calls made so far, in order. */
    var notifications: seq<Notification>

    /** The two properties hold what their observers last reported, or their initial values. */
    predicate Valid()
      reads this
    {
      && status == LastStatus(notifications, Unknown)
      && displayState == LastDisplay(notifications, Clear)
    }

    /**
     * `init`: the properties start as unknown and clear without calling
     * the handlers; the app version is resolved from the fetched strings;
     * then `performVersionCheck()` runs, whose assignments do call them.
     */
    constructor (urlIsValid: bool, marketing: Option<string>, build: Option<string>)
      ensures Valid()
      ensures this.urlIsValid == urlIsValid
      ensures appVersion == ResolveAppVersion(marketing, build)
      ensures developmentMode == (build == Some("0"))
      ensures lastVersionData == None
      ensures notifications ==
        if urlIsValid then [] else [StatusChanged(FetchFailure)] + WarnNotifications(InvalidUrlWarning, developmentMode)
    {
      this.urlIsValid := urlIsValid;
      status := Unknown;
      displayState := Clear;
      lastVersionData := None;
      notifications := [];
      if build.Some? && marketing.Some? && FromMarketing(marketing.value, build).Ok? {
        developmentMode := build.value == "0";
        appVersion := Some(FromMarketing(marketing.value, build).value);
      } else {
        developmentMode := build == Some("0");
        appVersion := None;
      }
      new;
      var fetchStarted := PerformVersionCheck();
    }

    /** `status = newStatus`, with its observer. */
    method SetStatus(newStatus: Status)
      requires Valid()
      modifies this
      ensures Valid()
      ensures status == newStatus && notifications == old(notifications) + [StatusChanged(newStatus)]
      ensures displayState == old(displayState) && appVersion == old(appVersion) && lastVersionData == old(lastVersionData)
    {
      status := newStatus;
      notifications := notifications + [StatusChanged(newStatus)];
      LastStatusAppend(old(notifications), [StatusChanged(newStatus)], Unknown);
      LastDisplayAppend(old(notifications), [StatusChanged(newStatus)], Clear);
    }

    /** `displayState = newState`, with its observer. */
    method SetDisplayState(newState: DisplayState)
      requires Valid()
      modifies this
      ensures Valid()
      ensures displayState == newState && notifications == old(notifications) + [DisplayChanged(newState)]
      ensures status == old(status) && appVersion == old(appVersion) && lastVersionData == old(lastVersionData)
    {
      displayState := newState;
      notifications := notifications + [DisplayChanged(newState)];
      LastStatusAppend(old(notifications), [DisplayChanged(newState)], Unknown);
      LastDisplayAppend(old(notifications), [DisplayChanged(newState)], Clear);
    }

    /** `warn`: a development failure on screen in development mode, nothing otherwise. */
    method Warn(message: string)
      requires Valid()
      modifies this
      ensures Valid()
      ensures notifications == old(notifications) + WarnNotifications(message, developmentMode)
      ensures displayState == if developmentMode then DevelopmentFailure(message) else old(displayState)
      ensures status == old(status) && appVersion == old(appVersion) && lastVersionData == old(lastVersionData)
    {
      if developmentMode {
        SetDisplayState(DevelopmentFailure(message));
      }
    }

    /**
     * `performVersionCheck`: an invalid URL is a fetch failure at once;
     * otherwise the fetch starts in the background and nothing changes
     * until `CompleteFetch`.
     */
    method PerformVersionCheck() returns (fetchStarted: bool)
      requires Valid()
      modifies this
      ensures Valid()
      ensures fetchStarted == urlIsValid
      ensures notifications == old(notifications) +
        if urlIsValid then [] else [StatusChanged(FetchFailure)] + WarnNotifications(InvalidUrlWarning, developmentMode)
      ensures appVersion == old(appVersion) && lastVersionData == old(lastVersionData)
    {
      if !urlIsValid {
        SetStatus(FetchFailure);
        Warn(InvalidUrlWarning);
        return false;
      }
      return true;
    }

    /**
     * The main-queue completion of the background fetch that
     * `PerformVersionCheck` started, which it does only for a valid URL: no
     * data and data that does not decode are fetch failures; decoded data
     * is validated.
     * (A custom `jsonFormatConverter` always yields data, so it is a
     * `Received(Some(_))` response.)
     */
    method CompleteFetch(response: Response)
      requires Valid()
      requires urlIsValid
      requires response.Received? && response.decoded.Some? && appVersion.Some? ==>
        ComparisonsDefined(appVersion.value, response.decoded.value)
      modifies this
      ensures Valid()
      ensures appVersion == old(appVersion)
      ensures response.NoData? ==>
        && notifications == old(notifications) + [StatusChanged(FetchFailure)] + WarnNotifications(FetchWarning, developmentMode)
        && lastVersionData == old(lastVersionData)
      ensures response == Received(None) ==>
        && notifications == old(notifications) + [StatusChanged(FetchFailure)] + WarnNotifications(DecodeWarning, developmentMode)
        && lastVersionData == old(lastVersionData)
      ensures response.Received? && response.decoded.Some? ==>
        && notifications == old(notifications) + ValidationNotifications(appVersion, response.decoded.value, developmentMode)
        && lastVersionData == response.decoded
    {
      match response
      case NoData =>
        SetStatus(FetchFailure);
        Warn(FetchWarning);
      case Received(decoded) =>
        if decoded.Some? {
          ValidateVersion(decoded.value);
        } else {
          SetStatus(FetchFailure);
          Warn(DecodeWarning);
        }
    }

    /** `validateVersion`: record the data, then apply the rules in order, reporting through the observers as it goes. */
    method ValidateVersion(versionData: VersionData)
      requires Valid()
      requires appVersion.Some? ==> ComparisonsDefined(appVersion.value, versionData)
      modifies this
      ensures Valid()
      ensures appVersion == old(appVersion) && lastVersionData == Some(versionData)
      ensures notifications == old(notifications) + ValidationNotifications(appVersion, versionData, developmentMode)
      ensures appVersion.Some? ==> (status, displayState) == Verdict(appVersion.value, versionData)
    {
      lastVersionData := Some(versionData);
      if appVersion.None? {
        SetStatus(FetchFailure);
        Warn(AppVersionWarning);
        return;
      }
      var app := appVersion.value;
      if versionData.serverForceVersionFailure == Some(true) {
        SetStatus(VersionDisallowed);
        SetDisplayState(ForceUpdate);
        return;
      }
      ghost var warning := if MinimumVersion(versionData).None? then WarnNotifications(NoMinimumWarning, developmentMode) else [];
      var minimum := MinimumVersion(versionData);
      if minimum.Some? {
        var below := LessThan(app, minimum.value);
        if below {
          assert Verdict(app, versionData) == (VersionDisallowed, ForceUpdate);
          SetStatus(VersionDisallowed);
          SetDisplayState(ForceUpdate);
          VerdictReported(old(notifications), warning, VersionDisallowed, ForceUpdate);
          return;
        }
      } else {
        Warn(NoMinimumWarning);
      }
      assert notifications == old(notifications) + warning;
      var blocked := FindBlocked(app, BlockedVersions(versionData));
      if blocked {
        assert Verdict(app, versionData) == (VersionDisallowed, ForceUpdate);
        SetStatus(VersionDisallowed);
        SetDisplayState(ForceUpdate);
        VerdictReported(old(notifications), warning, VersionDisallowed, ForceUpdate);
        return;
      }
      var latest := LatestTestVersion(versionData);
      if latest.Some? {
        var behind := LessThan(app, latest.value);
        if behind {
          assert Verdict(app, versionData) == (VersionAllowed, SuggestUpdate);
          SetStatus(VersionAllowed);
          SetDisplayState(SuggestUpdate);
          VerdictReported(old(notifications), warning, VersionAllowed, SuggestUpdate);
          return;
        }
      }
      if versionData.serverMaintenance == Some(true) {
        assert Verdict(app, versionData) == (VersionAllowed, DownForMaintenance);
        SetStatus(VersionAllowed);
        SetDisplayState(DownForMaintenance);
        VerdictReported(old(notifications), warning, VersionAllowed, DownForMaintenance);
        return;
      }
      assert Verdict(app, versionData) == (VersionAllowed, Clear);
      SetStatus(VersionAllowed);
      SetDisplayState(Clear);
      VerdictReported(old(notifications), warning, VersionAllowed, Clear);
    }
  }
}
