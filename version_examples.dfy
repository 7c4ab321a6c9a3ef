/**
 * What the repository's tests expect of `Version`, and the parsing quirks
 * of the code, stated on concrete strings.
 */
module VersionExamples {
  import opened Wrappers
  import opened Strings
  import opened Versions

  /** The test helper `versionsEqual`: both strings parse, and the versions are `==`. */
  predicate VersionsEqual(a: string, b: string) {
    FromString(a).Ok? && FromString(b).Ok? && Equal(FromString(a).value, FromString(b).value)
  }

  /** The test helper `versionsOrderedAscending`: both strings parse, and the first version is `<` the second. */
  predicate VersionsOrderedAscending(a: string, b: string) {
    && FromString(a).Ok? && FromString(b).Ok?
    && Comparable(FromString(a).value, FromString(b).value)
    && Less(FromString(a).value, FromString(b).value)
  }

  /** Both strings parse, as the test helpers' `try!` demands whatever the comparison gives. */
  predicate VersionsParse(a: string, b: string) {
    FromString(a).Ok? && FromString(b).Ok?
  }

  /** Both strings parse and `<` can compare them without trapping, whatever its answer. */
  predicate VersionsComparable(a: string, b: string) {
    FromString(a).Ok? && FromString(b).Ok? && Comparable(FromString(a).value, FromString(b).value)
  }

  /** The test helper `versionsPatternMatch`: both strings parse, and the pattern matches the value. */
  predicate VersionsPatternMatch(pattern: string, value: string) {
    FromString(pattern).Ok? && FromString(value).Ok? && Matches(FromString(pattern).value, FromString(value).value)
  }

  // Steps from a concrete string to its parse, each through a general lemma.

  lemma RoundTripOf(v: Version, s: string)
    requires Canonical(v) && Description(v) == s
    ensures FromString(s) == Ok(v)
  {
    DescriptionRoundTrip(v);
  }

  lemma MarketingOf(v: Version, marketing: string, build: Option<string>)
    requires Canonical(v) && MarketingText(v) == marketing && BuildText(v) == build
    ensures FromMarketing(marketing, build) == Ok(v)
  {
    ParseFieldsOfRendered(v);
  }

  lemma WithBuildOf(v: Version, build: string, s: string)
    requires Canonical(v) && v.build.None?
    requires build != "" && '@' !in build
    requires MarketingText(v) + "@" + build == s
    ensures FromString(s) == Ok(v.(build := BuildNumber(Some(build)), isDevelopment := build == "0"))
  {
    MarketingTextHasNoAt(v);
    ParseFieldsOfRendered(v);
    ParseFieldsBuildIndependent(Some(MarketingText(v)), None, Some(build));
    FromStringAgreesWithFromMarketing(MarketingText(v), build);
  }

  lemma BuildOnlyOf(build: string, s: string)
    requires "@" + build == s
    ensures FromString(s) == Ok(Version([], BuildNumber(Some(build)), None, build == "0"))
  {
    FromStringAgreesWithFromBuild(build);
  }

  lemma ComponentsOf(pieces: seq<string>, components: seq<int>)
    requires |pieces| == |components|
    requires forall i :: 0 <= i < |pieces| ==> ParseInt(pieces[i]) == Some(components[i])
    ensures ParseComponents(pieces) == Some(components)
  {
    var r := ParseComponents(pieces);
    assert r.value == components;
  }

  lemma NumberOf(n: nat, s: string)
    requires NatToString(n) == s
    ensures ParseInt(s) == Some(n)
  {
    ParseIntOfIntToString(n);
  }

  // ParsingTests

  /** "1.2.3-test@250" has components 1, 2, 3, additional text "-test" and build 250, is not a development build, and renders back to itself. */
  lemma BasicParse()
    ensures FromString("1.2.3-test@250") == Ok(Version([1, 2, 3], Some(250), Some("-test"), false))
    ensures Description(FromString("1.2.3-test@250").value) == "1.2.3-test@250"
  {
    RoundTripOf(Version([1, 2, 3], Some(250), Some("-test"), false), "1.2.3-test@250");
  }

  lemma Parse1()
    ensures FromString("1") == Ok(Version([1], None, Some(""), false))
  {
    RoundTripOf(Version([1], None, Some(""), false), "1");
  }

  lemma Parse12()
    ensures FromString("1.2") == Ok(Version([1, 2], None, Some(""), false))
  {
    RoundTripOf(Version([1, 2], None, Some(""), false), "1.2");
  }

  lemma Parse12345()
    ensures FromString("1.2.3.4.5") == Ok(Version([1, 2, 3, 4, 5], None, Some(""), false))
  {
    RoundTripOf(Version([1, 2, 3, 4, 5], None, Some(""), false), "1.2.3.4.5");
  }

  lemma Parse112b()
    ensures FromString("1.12b") == Ok(Version([1, 12], None, Some("b"), false))
  {
    RoundTripOf(Version([1, 12], None, Some("b"), false), "1.12b");
  }

  lemma Parse100At250()
    ensures FromString("1.0.0@250") == Ok(Version([1, 0, 0], Some(250), Some(""), false))
  {
    RoundTripOf(Version([1, 0, 0], Some(250), Some(""), false), "1.0.0@250");
  }

  lemma Parse100Beta5At250()
    ensures FromString("1.0.0-beta5@250") == Ok(Version([1, 0, 0], Some(250), Some("-beta5"), false))
  {
    RoundTripOf(Version([1, 0, 0], Some(250), Some("-beta5"), false), "1.0.0-beta5@250");
  }

  lemma Parse124TestAt250()
    ensures FromString("1.2.4-test@250") == Ok(Version([1, 2, 4], Some(250), Some("-test"), false))
  {
    RoundTripOf(Version([1, 2, 4], Some(250), Some("-test"), false), "1.2.4-test@250");
  }

  lemma Parse110()
    ensures FromString("1.1.0") == Ok(Version([1, 1, 0], None, Some(""), false))
  {
    RoundTripOf(Version([1, 1, 0], None, Some(""), false), "1.1.0");
  }

  lemma Parse120()
    ensures FromString("1.2.0") == Ok(Version([1, 2, 0], None, Some(""), false))
  {
    RoundTripOf(Version([1, 2, 0], None, Some(""), false), "1.2.0");
  }

  lemma Parse121()
    ensures FromString("1.2.1") == Ok(Version([1, 2, 1], None, Some(""), false))
  {
    RoundTripOf(Version([1, 2, 1], None, Some(""), false), "1.2.1");
  }

  lemma Parse122()
    ensures FromString("1.2.2") == Ok(Version([1, 2, 2], None, Some(""), false))
  {
    RoundTripOf(Version([1, 2, 2], None, Some(""), false), "1.2.2");
  }

  lemma Parse1210()
    ensures FromString("1.2.10") == Ok(Version([1, 2, 10], None, Some(""), false))
  {
    RoundTripOf(Version([1, 2, 10], None, Some(""), false), "1.2.10");
  }

  lemma Parse124()
    ensures FromString("1.2.4") == Ok(Version([1, 2, 4], None, Some(""), false))
  {
    RoundTripOf(Version([1, 2, 4], None, Some(""), false), "1.2.4");
  }

  lemma Parse135()
    ensures FromString("1.3.5") == Ok(Version([1, 3, 5], None, Some(""), false))
  {
    RoundTripOf(Version([1, 3, 5], None, Some(""), false), "1.3.5");
  }

  lemma Parse134()
    ensures FromString("1.3.4") == Ok(Version([1, 3, 4], None, Some(""), false))
  {
    RoundTripOf(Version([1, 3, 4], None, Some(""), false), "1.3.4");
  }

  lemma Parse3()
    ensures FromString("3") == Ok(Version([3], None, Some(""), false))
  {
    RoundTripOf(Version([3], None, Some(""), false), "3");
  }

  lemma Parse41()
    ensures FromString("4.1") == Ok(Version([4, 1], None, Some(""), false))
  {
    RoundTripOf(Version([4, 1], None, Some(""), false), "4.1");
  }

  lemma Parse2()
    ensures FromString("2") == Ok(Version([2], None, Some(""), false))
  {
    RoundTripOf(Version([2], None, Some(""), false), "2");
  }

  lemma Parse14()
    ensures FromString("1.4") == Ok(Version([1, 4], None, Some(""), false))
  {
    RoundTripOf(Version([1, 4], None, Some(""), false), "1.4");
  }

  lemma Parse12At300()
    ensures FromString("1.2@300") == Ok(Version([1, 2], Some(300), Some(""), false))
  {
    RoundTripOf(Version([1, 2], Some(300), Some(""), false), "1.2@300");
  }

  lemma Parse12At301()
    ensures FromString("1.2@301") == Ok(Version([1, 2], Some(301), Some(""), false))
  {
    RoundTripOf(Version([1, 2], Some(301), Some(""), false), "1.2@301");
  }

  lemma Parse12bAt300()
    ensures FromString("1.2-b@300") == Ok(Version([1, 2], Some(300), Some("-b"), false))
  {
    RoundTripOf(Version([1, 2], Some(300), Some("-b"), false), "1.2-b@300");
  }

  lemma Parse12aAt301()
    ensures FromString("1.2-a@301") == Ok(Version([1, 2], Some(301), Some("-a"), false))
  {
    RoundTripOf(Version([1, 2], Some(301), Some("-a"), false), "1.2-a@301");
  }

  lemma Parse13At300()
    ensures FromString("1.3@300") == Ok(Version([1, 3], Some(300), Some(""), false))
  {
    RoundTripOf(Version([1, 3], Some(300), Some(""), false), "1.3@300");
  }

  lemma Parse12At200()
    ensures FromString("1.2@200") == Ok(Version([1, 2], Some(200), Some(""), false))
  {
    RoundTripOf(Version([1, 2], Some(200), Some(""), false), "1.2@200");
  }

  lemma Parse12At250()
    ensures FromString("1.2@250") == Ok(Version([1, 2], Some(250), Some(""), false))
  {
    RoundTripOf(Version([1, 2], Some(250), Some(""), false), "1.2@250");
  }

  lemma Parse121At400()
    ensures FromString("1.2.1@400") == Ok(Version([1, 2, 1], Some(400), Some(""), false))
  {
    RoundTripOf(Version([1, 2, 1], Some(400), Some(""), false), "1.2.1@400");
  }

  lemma Parse12At0()
    ensures FromString("1.2@0") == Ok(Version([1, 2], None, Some(""), true))
  {
    WithBuildOf(Version([1, 2], None, Some(""), false), "0", "1.2@0");
  }

  lemma Parse13At0()
    ensures FromString("1.3@0") == Ok(Version([1, 3], None, Some(""), true))
  {
    WithBuildOf(Version([1, 3], None, Some(""), false), "0", "1.3@0");
  }

  lemma Parse11At0()
    ensures FromString("1.1@0") == Ok(Version([1, 1], None, Some(""), true))
  {
    WithBuildOf(Version([1, 1], None, Some(""), false), "0", "1.1@0");
  }

  lemma ParseAt250()
    ensures FromString("@250") == Ok(Version([], Some(250), None, false))
  {
    BuildOnlyOf("250", "@250");
    NumberOf(250, "250");
  }

  lemma ParseAt300()
    ensures FromString("@300") == Ok(Version([], Some(300), None, false))
  {
    BuildOnlyOf("300", "@300");
    NumberOf(300, "300");
  }

  /** The version strings the tests expect to parse. */
  lemma ValidStrings()
    ensures FromString("1") == Ok(Version([1], None, Some(""), false))
    ensures FromString("1.2") == Ok(Version([1, 2], None, Some(""), false))
    ensures FromString("1.2.3.4.5") == Ok(Version([1, 2, 3, 4, 5], None, Some(""), false))
    ensures FromString("1.12b") == Ok(Version([1, 12], None, Some("b"), false))
    ensures FromString("1.0.0@250") == Ok(Version([1, 0, 0], Some(250), Some(""), false))
    ensures FromString("1.0.0-beta5@250") == Ok(Version([1, 0, 0], Some(250), Some("-beta5"), false))
    ensures FromString("@250") == Ok(Version([], Some(250), None, false))
  {
    Parse1();
    Parse12();
    Parse12345();
    Parse112b();
    Parse100At250();
    Parse100Beta5At250();
    ParseAt250();
  }

  /** The version strings the tests expect to be rejected for their shape: two builds, no digits at all, or nothing. */
  lemma InvalidStrings()
    ensures FromString("1.0@4@5").Err?
    ensures FromString("foo").Err?
    ensures FromString("").Err?
    ensures FromString(".").Err?
  {
    RejectTooManyBuilds();
    RejectFoo();
    RejectDot();
    RejectEmpty();
  }

  /** The version strings the tests expect to be rejected for a numeric part that ends in a dot. */
  lemma InvalidNumericParts()
    ensures FromString("1.foo.0").Err?
    ensures FromString("1.x").Err?
  {
    NumericOfBadMarketing();
    RejectDotAtEdge("1.foo.0", "1.");
    RejectDotAtEdge("1.x", "1.");
  }

  /** "1.0@4@5" has two '@' separators (lines 68-72). */
  lemma RejectTooManyBuilds()
    ensures FromString("1.0@4@5").Err?
  {
    SplitJoin(["1.0", "4", "5"], '@');
    assert Join(["1.0", "4", "5"], '@') == "1.0@4@5";
  }

  lemma RejectFoo()
    ensures FromString("foo").Err?
  {
  }

  lemma RejectDot()
    ensures FromString(".").Err?
  {
  }

  lemma RejectEmpty()
    ensures FromString("").Err?
  {
  }

  lemma NumericOfBadMarketing()
    ensures NumericMarketing("1.foo.0") == "1."
    ensures NumericMarketing("1.x") == "1."
  {
    MarketingPartsOf("1.foo.0", "", "1.", "foo.0");
    MarketingPartsOf("1.x", "", "1.", "x");
  }

  lemma RejectDotAtEdge(marketing: string, numeric: string)
    requires marketing != "" && '@' !in marketing
    requires NumericMarketing(marketing) == numeric && DotAtEdge(numeric)
    ensures FromString(marketing).Err?
  {
    FromStringAgreesWithMarketingOnly(marketing);
    ParseFieldsFails(Some(marketing), None);
  }

  // Quirks of the code

  /** A build string that is not an integer is not an error: it leaves the build number nil. */
  lemma NonNumericBuildIsIgnored()
    ensures FromString("1.0@foo") == Ok(Version([1, 0], None, Some(""), false))
    ensures FromString("@foo") == Ok(Version([], None, None, false))
  {
    Parse10AtFoo();
    ParseAtFoo();
  }

  lemma Parse10AtFoo()
    ensures FromString("1.0@foo") == Ok(Version([1, 0], None, Some(""), false))
  {
    WithBuildOf(Version([1, 0], None, Some(""), false), "foo", "1.0@foo");
  }

  lemma ParseAtFoo()
    ensures FromString("@foo") == Ok(Version([], None, None, false))
  {
    BuildOnlyOf("foo", "@foo");
  }

  /** The emptiness check reads the build string: "@" parses, with no components and no build number; "@0" is a development build. */
  lemma BuildStringOnly()
    ensures FromString("@") == Ok(Version([], None, None, false))
    ensures FromString("@0") == Ok(Version([], None, None, true))
  {
    BuildOnlyOf("", "@");
    BuildOnlyOf("0", "@0");
  }

  /** `Int(_:)` accepts a sign, so a build number can be negative. */
  lemma SignedBuild()
    ensures FromString("1@-5") == Ok(Version([1], Some(-5), Some(""), false))
  {
    WithBuildOf(Version([1], None, Some(""), false), "-5", "1@-5");
    NegativeFive();
  }

  lemma NegativeFive()
    ensures BuildNumber(Some("-5")) == Some(-5)
  {
    assert "-5"[1..] == "5";
  }
}
