/**
 * The engine's rules applied to one concrete server policy: minimum
 * version 2.1, blocked versions 2.2.0, 2.2.1 and "@301", and latest test
 * version 2.4.2@400. The versions are written out as values.
 */
module EngineExamples {
  import opened Wrappers
  import opened Versions
  import opened ServerData
  import opened Engine

  /** A release version with the given components and build number and no additional text. */
  function Release(components: seq<int>, build: int): (v: Version) {
    Version(components, Some(build), Some(""), false)
  }

  function Minimum(): (v: Version) {
    Version([2, 1], None, Some(""), false)
  }

  function LatestTest(): (v: Version) {
    Release([2, 4, 2], 400)
  }

  function Blocked(): (blocked: seq<Version>) {
    [Version([2, 2, 0], None, Some(""), false), Version([2, 2, 1], None, Some(""), false), Version([], Some(301), None, false)]
  }

  function Policy(): (data: VersionData) {
    VersionData(Some(PlatformVersionData(Some(Minimum()), Some(Blocked()), Some(LatestTest()))), None, None)
  }

  /** 2.0.1@100 is below the minimum 2.1, so it is disallowed and forced to update. */
  lemma BelowMinimumIsForced()
    ensures ComparisonsDefined(Release([2, 0, 1], 100), Policy())
    ensures Verdict(Release([2, 0, 1], 100), Policy()) == (VersionDisallowed, ForceUpdate)
  {
    var app := Release([2, 0, 1], 100);
    LessIff(app, Minimum());
    assert ComponentAt(app.marketingComponents, 1) < ComponentAt(Minimum().marketingComponents, 1);
  }

  /**
   * 2.1.1@200 meets the minimum and matches no blocked pattern, but it is
   * below the latest test version 2.4.2, so the latest-test rule decides:
   * an update is suggested.
   */
  lemma BelowLatestTestIsSuggested()
    ensures ComparisonsDefined(Release([2, 1, 1], 200), Policy())
    ensures Verdict(Release([2, 1, 1], 200), Policy()) == (VersionAllowed, SuggestUpdate)
  {
    var app := Release([2, 1, 1], 200);
    LessIff(app, Minimum());
    assert ComponentAt(app.marketingComponents, 2) > ComponentAt(Minimum().marketingComponents, 2);
    var blocked := Blocked();
    MatchesIff(blocked[0], app);
    MatchesIff(blocked[1], app);
    MatchesIff(blocked[2], app);
    assert ComponentAt(app.marketingComponents, 1) == 1;
    assert !IsBlocked(app, blocked);
    LessIff(app, LatestTest());
    assert ComponentAt(app.marketingComponents, 1) < ComponentAt(LatestTest().marketingComponents, 1);
  }

  /** 2.2.1@400 meets the minimum, but the blocked pattern 2.2.1 matches it, so it is disallowed. */
  lemma BlockedIsForced()
    ensures ComparisonsDefined(Release([2, 2, 1], 400), Policy())
    ensures Verdict(Release([2, 2, 1], 400), Policy()) == (VersionDisallowed, ForceUpdate)
  {
    var app := Release([2, 2, 1], 400);
    LessIff(app, Minimum());
    assert ComponentAt(app.marketingComponents, 1) > ComponentAt(Minimum().marketingComponents, 1);
    MatchesIff(Blocked()[1], app);
    assert Matches(Blocked()[1], app);
  }

  /** The three apps against the one policy, checking the rules in the source's order. */
  lemma PolicyVerdicts()
    ensures Verdict(Release([2, 0, 1], 100), Policy()) == (VersionDisallowed, ForceUpdate)
    ensures Verdict(Release([2, 1, 1], 200), Policy()) == (VersionAllowed, SuggestUpdate)
    ensures Verdict(Release([2, 2, 1], 400), Policy()) == (VersionDisallowed, ForceUpdate)
  {
    BelowMinimumIsForced();
    BelowLatestTestIsSuggested();
    BlockedIsForced();
  }
}
