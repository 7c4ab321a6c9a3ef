/**
 * What the repository's comparison tests expect of `==`, `<` and `~=`,
 * stated on the versions the concrete strings parse to.
 */
module ComparisonExamples {
  import opened Wrappers
  import opened Strings
  import opened Versions
  import opened VersionExamples

  // Versions built with `init(marketing:build:)` and `init(build:)`.

  lemma Marketing123()
    ensures FromMarketing("1.2.3", None) == Ok(Version([1, 2, 3], None, Some(""), false))
  {
    MarketingOf(Version([1, 2, 3], None, Some(""), false), "1.2.3", None);
  }

  lemma Marketing123At300()
    ensures FromMarketing("1.2.3", Some("300")) == Ok(Version([1, 2, 3], Some(300), Some(""), false))
  {
    assert IntToString(300) == "300";
    MarketingOf(Version([1, 2, 3], Some(300), Some(""), false), "1.2.3", Some("300"));
  }

  lemma Marketing114At250()
    ensures FromMarketing("1.1.4", Some("250")) == Ok(Version([1, 1, 4], Some(250), Some(""), false))
  {
    assert IntToString(250) == "250";
    MarketingOf(Version([1, 1, 4], Some(250), Some(""), false), "1.1.4", Some("250"));
  }

  lemma Marketing123TestAt250()
    ensures FromMarketing("1.2.3-test", Some("250")) == Ok(Version([1, 2, 3], Some(250), Some("-test"), false))
  {
    assert IntToString(250) == "250";
    MarketingOf(Version([1, 2, 3], Some(250), Some("-test"), false), "1.2.3-test", Some("250"));
  }

  lemma Marketing110()
    ensures FromMarketing("1.1.0", None) == Ok(Version([1, 1, 0], None, Some(""), false))
  {
    MarketingOf(Version([1, 1, 0], None, Some(""), false), "1.1.0", None);
  }

  lemma Build250()
    ensures FromBuild("250") == Ok(Version([], Some(250), None, false))
  {
    FromStringAgreesWithFromBuild("250");
    ParseAt250();
  }

  /** `XCTAssertEqual` on two `try?` results: both nil, or both versions and `==`. */
  predicate OptionalEqual(a: Result<Version, VersionError>, b: Result<Version, VersionError>) {
    (a.Err? && b.Err?) || (a.Ok? && b.Ok? && Equal(a.value, b.value))
  }

  /** Versions whose zero-padded components differ somewhere are not `==`. */
  lemma NotEqualAt(lhs: Version, rhs: Version, i: int)
    requires ComponentAt(lhs.marketingComponents, i) != ComponentAt(rhs.marketingComponents, i)
    ensures !Equal(lhs, rhs)
  {
    EqualIff(lhs, rhs);
  }

  // testBasicEquality

  /** "1.2.3-test@250" equals itself and a second parse of itself. */
  lemma BasicEquality()
    ensures FromString("1.2.3-test@250").Ok?
    ensures OptionalEqual(FromString("1.2.3-test@250"), FromString("1.2.3-test@250"))
  {
    BasicParse();
    EqualIsEquivalence(Version([1, 2, 3], Some(250), Some("-test"), false), Version([1, 2, 3], Some(250), Some("-test"), false), Version([1, 2, 3], Some(250), Some("-test"), false));
  }

  lemma NotEqual124()
    ensures !OptionalEqual(FromString("1.2.3-test@250"), FromString("1.2.4-test@250"))
  {
    BasicParse();
    Parse124TestAt250();
    NotEqualAt(Version([1, 2, 3], Some(250), Some("-test"), false), Version([1, 2, 4], Some(250), Some("-test"), false), 2);
  }

  lemma NotEqual123()
    ensures !OptionalEqual(FromString("1.2.3-test@250"), FromMarketing("1.2.3", None))
  {
    BasicParse();
    Marketing123();
  }

  lemma NotEqual123At300()
    ensures !OptionalEqual(FromString("1.2.3-test@250"), FromMarketing("1.2.3", Some("300")))
  {
    BasicParse();
    Marketing123At300();
  }

  lemma NotEqual114At250()
    ensures !OptionalEqual(FromString("1.2.3-test@250"), FromMarketing("1.1.4", Some("250")))
  {
    BasicParse();
    Marketing114At250();
    NotEqualAt(Version([1, 2, 3], Some(250), Some("-test"), false), Version([1, 1, 4], Some(250), Some(""), false), 1);
  }

  /** Both failing and `==` are what `XCTAssertNotEqual` denies. */
  lemma BasicInequality()
    ensures !OptionalEqual(FromString("1.2.3-test@250"), FromString("1.2.4-test@250"))
    ensures !OptionalEqual(FromString("1.2.3-test@250"), FromMarketing("1.2.3", None))
    ensures !OptionalEqual(FromString("1.2.3-test@250"), FromMarketing("1.2.3", Some("300")))
    ensures !OptionalEqual(FromString("1.2.3-test@250"), FromMarketing("1.1.4", Some("250")))
  {
    NotEqual124();
    NotEqual123();
    NotEqual123At300();
    NotEqual114At250();
  }

  /** A version is `==` to itself. */
  lemma EqualToItself(v: Version)
    ensures Equal(v, v)
  {
    EqualIsEquivalence(v, v, v);
  }

  // testAlternateConstructions

  /** The three initializers agree. (That a different additional text plays no part in `==` is `Versions.AdditionalTextIsKept` with `Versions.EqualIgnoresTextAndDevelopment`.) */
  lemma AlternateConstructions()
    ensures OptionalEqual(FromString("1.2.3-test@250"), FromMarketing("1.2.3-test", Some("250")))
    ensures OptionalEqual(FromString("@250"), FromBuild("250"))
    ensures OptionalEqual(FromString("1.1.0"), FromMarketing("1.1.0", None))
  {
    BasicParse();
    Marketing123TestAt250();
    ParseAt250();
    Build250();
    Parse110();
    Marketing110();
    EqualToItself(Version([1, 2, 3], Some(250), Some("-test"), false));
    EqualToItself(Version([], Some(250), None, false));
    EqualToItself(Version([1, 1, 0], None, Some(""), false));
  }

  // testMissingComponents

  /** Versions whose zero-padded components agree, and whose builds agree, are `==`. */
  lemma EqualOf(lhs: Version, rhs: Version, n: nat)
    requires |lhs.marketingComponents| <= n && |rhs.marketingComponents| <= n
    requires forall i :: 0 <= i < n ==> ComponentAt(lhs.marketingComponents, i) == ComponentAt(rhs.marketingComponents, i)
    requires lhs.build == rhs.build
    ensures Equal(lhs, rhs)
  {
    EqualIff(lhs, rhs);
  }

  /** Missing components read as zero: "1.2" is "1.2.0" and is not "1.2.1". */
  lemma MissingComponents()
    ensures VersionsEqual("1.2", "1.2.0")
    ensures VersionsParse("1.2", "1.2.1") && !VersionsEqual("1.2", "1.2.1")
  {
    Parse12();
    Parse120();
    Parse121();
    var short, long := Version([1, 2], None, Some(""), false), Version([1, 2, 0], None, Some(""), false);
    assert ComponentAt(short.marketingComponents, 2) == ComponentAt(long.marketingComponents, 2);
    EqualOf(short, long, 3);
    NotEqualAt(short, Version([1, 2, 1], None, Some(""), false), 2);
  }

  // testPatternMatch

  /** `~=` on the versions of the pattern tests. */
  lemma PatternFacts()
    ensures Matches(Version([1, 2], None, Some(""), false), Version([1, 2, 1], None, Some(""), false))
    ensures Matches(Version([1, 2, 1], None, Some(""), false), Version([1, 2, 1], Some(400), Some(""), false))
    ensures !Matches(Version([], Some(300), None, false), Version([1, 2, 1], Some(400), Some(""), false))
    ensures Matches(Version([1], None, Some(""), false), Version([1, 2, 1], None, Some(""), false))
    ensures !Matches(Version([1, 4], None, Some(""), false), Version([1, 2, 1], None, Some(""), false))
  {
  }

  lemma Match12_121()
    ensures VersionsPatternMatch("1.2", "1.2.1")
  {
    Parse12();
    Parse121();
    PatternFacts();
  }

  lemma Match121_121At400()
    ensures VersionsPatternMatch("1.2.1", "1.2.1@400")
  {
    Parse121();
    Parse121At400();
    PatternFacts();
  }

  lemma MatchAt300_121At400()
    ensures VersionsParse("@300", "1.2.1@400") && !VersionsPatternMatch("@300", "1.2.1@400")
  {
    ParseAt300();
    Parse121At400();
    PatternFacts();
  }

  lemma Match1_121()
    ensures VersionsPatternMatch("1", "1.2.1")
  {
    Parse1();
    Parse121();
    PatternFacts();
  }

  lemma Match14_121()
    ensures VersionsParse("1.4", "1.2.1") && !VersionsPatternMatch("1.4", "1.2.1")
  {
    Parse14();
    Parse121();
    PatternFacts();
  }

  // testOrdering

  /** `<` on the ordering tests' versions that first differ past the first component. */
  lemma LaterComponentFacts()
    ensures Comparable(Version([1, 2], None, Some(""), false), Version([1, 2, 1], None, Some(""), false)) && Less(Version([1, 2], None, Some(""), false), Version([1, 2, 1], None, Some(""), false))
    ensures Comparable(Version([1, 2, 2], None, Some(""), false), Version([1, 2, 10], None, Some(""), false)) && Less(Version([1, 2, 2], None, Some(""), false), Version([1, 2, 10], None, Some(""), false))
    ensures Comparable(Version([1, 2, 2], None, Some(""), false), Version([1, 2, 1], None, Some(""), false)) && !Less(Version([1, 2, 2], None, Some(""), false), Version([1, 2, 1], None, Some(""), false))
    ensures Comparable(Version([1, 2, 4], None, Some(""), false), Version([1, 3, 5], None, Some(""), false)) && Less(Version([1, 2, 4], None, Some(""), false), Version([1, 3, 5], None, Some(""), false))
    ensures Comparable(Version([1, 2, 4], None, Some(""), false), Version([1, 3, 4], None, Some(""), false)) && Less(Version([1, 2, 4], None, Some(""), false), Version([1, 3, 4], None, Some(""), false))
  {
  }

  /** `<` on the ordering tests' versions that differ in the first component. */
  lemma FirstComponentFacts()
    ensures Comparable(Version([1, 2, 4], None, Some(""), false), Version([3], None, Some(""), false)) && Less(Version([1, 2, 4], None, Some(""), false), Version([3], None, Some(""), false))
    ensures Comparable(Version([3], None, Some(""), false), Version([4, 1], None, Some(""), false)) && Less(Version([3], None, Some(""), false), Version([4, 1], None, Some(""), false))
    ensures Comparable(Version([1, 2], None, Some(""), false), Version([2], None, Some(""), false)) && Less(Version([1, 2], None, Some(""), false), Version([2], None, Some(""), false))
  {
  }

  /** `<` on the versions with builds of the ordering tests. */
  lemma OrderingBuildFacts()
    ensures Comparable(Version([1, 2], Some(300), Some(""), false), Version([1, 2], Some(301), Some(""), false)) && Less(Version([1, 2], Some(300), Some(""), false), Version([1, 2], Some(301), Some(""), false))
    ensures Comparable(Version([1, 2], Some(300), Some("-b"), false), Version([1, 2], Some(301), Some("-a"), false)) && Less(Version([1, 2], Some(300), Some("-b"), false), Version([1, 2], Some(301), Some("-a"), false))
    ensures Comparable(Version([1, 3], Some(300), Some(""), false), Version([1, 2], Some(200), Some(""), false)) && !Less(Version([1, 3], Some(300), Some(""), false), Version([1, 2], Some(200), Some(""), false))
  {
  }

  lemma Ascending12_121()
    ensures VersionsOrderedAscending("1.2", "1.2.1")
  {
    Parse12();
    Parse121();
    LaterComponentFacts();
  }

  lemma Ascending122_1210()
    ensures VersionsOrderedAscending("1.2.2", "1.2.10")
  {
    Parse122();
    Parse1210();
    LaterComponentFacts();
  }

  lemma Ascending122_121()
    ensures VersionsComparable("1.2.2", "1.2.1") && !VersionsOrderedAscending("1.2.2", "1.2.1")
  {
    Parse122();
    Parse121();
    LaterComponentFacts();
  }

  lemma Ascending124_135()
    ensures VersionsOrderedAscending("1.2.4", "1.3.5")
  {
    Parse124();
    Parse135();
    LaterComponentFacts();
  }

  lemma Ascending124_3()
    ensures VersionsOrderedAscending("1.2.4", "3")
  {
    Parse124();
    Parse3();
    FirstComponentFacts();
  }

  lemma Ascending3_41()
    ensures VersionsOrderedAscending("3", "4.1")
  {
    Parse3();
    Parse41();
    FirstComponentFacts();
  }

  lemma Ascending124_134()
    ensures VersionsOrderedAscending("1.2.4", "1.3.4")
  {
    Parse124();
    Parse134();
    LaterComponentFacts();
  }

  lemma Ascending12_2()
    ensures VersionsOrderedAscending("1.2", "2")
  {
    Parse12();
    Parse2();
    FirstComponentFacts();
  }

  lemma Ascending12At300_12At301()
    ensures VersionsOrderedAscending("1.2@300", "1.2@301")
  {
    Parse12At300();
    Parse12At301();
    OrderingBuildFacts();
  }

  lemma Ascending12bAt300_12aAt301()
    ensures VersionsOrderedAscending("1.2-b@300", "1.2-a@301")
  {
    Parse12bAt300();
    Parse12aAt301();
    OrderingBuildFacts();
  }

  lemma Ascending13At300_12At200()
    ensures VersionsComparable("1.3@300", "1.2@200") && !VersionsOrderedAscending("1.3@300", "1.2@200")
  {
    Parse13At300();
    Parse12At200();
    OrderingBuildFacts();
  }

  // testDevelopmentBuild

  /** `<` on the versions of the development build tests. */
  lemma DevelopmentFacts()
    ensures Comparable(Version([1, 2], Some(250), Some(""), false), Version([1, 2], None, Some(""), true)) && Less(Version([1, 2], Some(250), Some(""), false), Version([1, 2], None, Some(""), true))
    ensures Comparable(Version([1, 2], None, Some(""), true), Version([1, 2], Some(250), Some(""), false)) && !Less(Version([1, 2], None, Some(""), true), Version([1, 2], Some(250), Some(""), false))
    ensures Comparable(Version([1, 2], Some(250), Some(""), false), Version([1, 3], None, Some(""), true)) && Less(Version([1, 2], Some(250), Some(""), false), Version([1, 3], None, Some(""), true))
    ensures Comparable(Version([1, 2], Some(250), Some(""), false), Version([1, 1], None, Some(""), true)) && !Less(Version([1, 2], Some(250), Some(""), false), Version([1, 1], None, Some(""), true))
  {
  }

  lemma Ascending12At250_12At0()
    ensures VersionsOrderedAscending("1.2@250", "1.2@0")
  {
    Parse12At250();
    Parse12At0();
    DevelopmentFacts();
  }

  lemma Ascending12At0_12At250()
    ensures VersionsComparable("1.2@0", "1.2@250") && !VersionsOrderedAscending("1.2@0", "1.2@250")
  {
    Parse12At0();
    Parse12At250();
    DevelopmentFacts();
  }

  lemma Ascending12At250_13At0()
    ensures VersionsOrderedAscending("1.2@250", "1.3@0")
  {
    Parse12At250();
    Parse13At0();
    DevelopmentFacts();
  }

  lemma Ascending12At250_11At0()
    ensures VersionsComparable("1.2@250", "1.1@0") && !VersionsOrderedAscending("1.2@250", "1.1@0")
  {
    Parse12At250();
    Parse11At0();
    DevelopmentFacts();
  }

  /** A pattern matches the versions that agree with it as far as it goes, and whose build equals its build if it has one. */
  lemma PatternMatch()
    ensures VersionsPatternMatch("1.2", "1.2.1")
    ensures VersionsPatternMatch("1.2.1", "1.2.1@400")
    ensures VersionsParse("@300", "1.2.1@400") && !VersionsPatternMatch("@300", "1.2.1@400")
    ensures VersionsPatternMatch("1", "1.2.1")
    ensures VersionsParse("1.4", "1.2.1") && !VersionsPatternMatch("1.4", "1.2.1")
  {
    Match12_121();
    Match121_121At400();
    MatchAt300_121At400();
    Match1_121();
    Match14_121();
  }

  /** `<` compares zero-padded components first, then the build number. */
  lemma Ordering()
    ensures VersionsOrderedAscending("1.2", "1.2.1")
    ensures VersionsOrderedAscending("1.2.2", "1.2.10")
    ensures VersionsComparable("1.2.2", "1.2.1") && !VersionsOrderedAscending("1.2.2", "1.2.1")
    ensures VersionsOrderedAscending("1.2.4", "1.3.5")
    ensures VersionsOrderedAscending("1.2.4", "3")
    ensures VersionsOrderedAscending("3", "4.1")
    ensures VersionsOrderedAscending("1.2.4", "1.3.4")
    ensures VersionsOrderedAscending("1.2", "2")
    ensures VersionsOrderedAscending("1.2@300", "1.2@301")
    ensures VersionsOrderedAscending("1.2-b@300", "1.2-a@301")
    ensures VersionsComparable("1.3@300", "1.2@200") && !VersionsOrderedAscending("1.3@300", "1.2@200")
  {
    Ascending12_121();
    Ascending122_1210();
    Ascending122_121();
    Ascending124_135();
    Ascending124_3();
    Ascending3_41();
    Ascending124_134();
    Ascending12_2();
    Ascending12At300_12At301();
    Ascending12bAt300_12aAt301();
    Ascending13At300_12At200();
  }

  /** A development build "@0" is newer than any build of the same marketing version, and no newer than a later marketing version. */
  lemma DevelopmentBuild()
    ensures VersionsOrderedAscending("1.2@250", "1.2@0")
    ensures VersionsComparable("1.2@0", "1.2@250") && !VersionsOrderedAscending("1.2@0", "1.2@250")
    ensures VersionsOrderedAscending("1.2@250", "1.3@0")
    ensures VersionsComparable("1.2@250", "1.1@0") && !VersionsOrderedAscending("1.2@250", "1.1@0")
  {
    Ascending12At250_12At0();
    Ascending12At0_12At250();
    Ascending12At250_13At0();
    Ascending12At250_11At0();
  }

  /** "1.2" and "1.2@0" are `==` (neither has a build number), yet "1.2" `<` "1.2@0": `==` and `<` disagree on development builds. */
  lemma EqualityAndOrderingDisagree()
    ensures VersionsEqual("1.2", "1.2@0")
    ensures VersionsOrderedAscending("1.2", "1.2@0")
  {
    Parse12();
    Parse12At0();
    EqualOf(Version([1, 2], None, Some(""), false), Version([1, 2], None, Some(""), true), 2);
  }
}
