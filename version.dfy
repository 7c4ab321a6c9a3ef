/**
 * `Version`: a marketing version such as "1.2.3-beta" with an optional
 * build number, parsed from text, rendered back to text, and compared by
 * equality (`==`), by ordering (`<`) and by pattern (`~=`).
 */
module Versions {
  import opened Wrappers
  import opened Strings
  import opened BoundsChecked
  import opened ZipNilPadding

  /** `VersionCheckError.invalidVersionString`, the one error every parse failure throws. */
  datatype VersionError = InvalidVersionString

  /** The immutable value struct `Version`. */
  datatype Version = Version(
    marketingComponents: seq<int>,
    build: Option<int>,
    additionalText: Option<string>,
    isDevelopment: bool)

  /** What every parsed version satisfies: a development build has no build number, and no component is negative. */
  ghost predicate WellFormed(v: Version) {
    && (v.isDevelopment ==> v.build.None?)
    && forall i :: 0 <= i < |v.marketingComponents| ==> v.marketingComponents[i] >= 0
  }

  // ---------------------------------------------------------------------
  // The marketing regular expression `([0-9\.]+)(.*)`
  // ---------------------------------------------------------------------

  /** The character class `[0-9\.]`. */
  predicate IsNumericChar(c: char) {
    IsDigit(c) || c == '.'
  }

  predicate AllNumeric(s: string) {
    forall i :: 0 <= i < |s| ==> IsNumericChar(s[i])
  }

  /** The index of the first digit or dot in `s`, or `|s|` when there is none. */
  function SkipNonNumeric(s: string): (k: nat)
    ensures k <= |s|
    ensures forall i :: 0 <= i < k ==> !IsNumericChar(s[i])
    ensures k < |s| ==> IsNumericChar(s[k])
    decreases |s|
  {
    if |s| == 0 || IsNumericChar(s[0]) then 0 else 1 + SkipNonNumeric(s[1..])
  }

  /** The length of the longest prefix of `s` made of digits and dots. */
  function NumericRun(s: string): (k: nat)
    ensures k <= |s|
    ensures AllNumeric(s[..k])
    ensures k < |s| ==> !IsNumericChar(s[k])
    decreases |s|
  {
    if |s| == 0 || !IsNumericChar(s[0]) then 0 else 1 + NumericRun(s[1..])
  }

  /**
   * `marketingRegex.captureGroups(in: s).first`: the capture groups (whole
   * match, group 1, group 2) of the first match of the unanchored pattern
   * `([0-9\.]+)(.*)`, or nil when there is no match. The match starts at
   * the leftmost digit or dot, group 1 is the longest run of digits and
   * dots from there, and group 2 is the rest of the string; text before
   * the run belongs to no group. Strings are taken to hold no line break,
   * where `.*` would stop.
   */
  function MarketingMatch(s: string): (groups: Option<seq<string>>)
    ensures groups.None? <==> forall i :: 0 <= i < |s| ==> !IsNumericChar(s[i])
    ensures groups.Some? ==> |groups.value| == 3 && |groups.value[0]| <= |s|
    ensures groups.Some? ==>
      var g := groups.value;
      var skipped := |s| - |g[0]|;
      && g[0] == g[1] + g[2] && s == s[..skipped] + g[0]
      && (forall i :: 0 <= i < skipped ==> !IsNumericChar(s[i]))
      && |g[1]| > 0 && AllNumeric(g[1])
      && (|g[2]| > 0 ==> !IsNumericChar(g[2][0]))
  {
    var start := SkipNonNumeric(s);
    if start == |s| then None
    else
      var tail := s[start..];
      var run := NumericRun(tail);
      assert tail[0] == s[start];
      var g := [tail, tail[..run], tail[run..]];
      assert g[0] == g[1] + g[2];
      assert s == s[..start] + g[0];
      assert |g[2]| > 0 ==> g[2][0] == tail[run];
      Some(g)
  }

  /** `splitMarketing.first?[checked: 1] ?? ""`: the numeric part of a marketing version. */
  function NumericMarketing(marketing: string): (numeric: string)
    ensures AllNumeric(numeric)
    ensures numeric == "" <==> forall i :: 0 <= i < |marketing| ==> !IsNumericChar(marketing[i])
  {
    (if MarketingMatch(marketing).Some? then Checked(MarketingMatch(marketing).value, 1) else None).GetOr("")
  }

  /** `splitMarketing.first?[checked: 2]`: whatever follows the numeric part; nil when there is no numeric part. */
  function AdditionalText(marketing: string): (text: Option<string>) {
    if MarketingMatch(marketing).Some? then Checked(MarketingMatch(marketing).value, 2) else None
  }

  /** The leftmost digit or dot follows a prefix with none. */
  lemma {:induction false} SkipNonNumericOf(s: string, prefix: string, tail: string)
    requires s == prefix + tail
    requires forall i :: 0 <= i < |prefix| ==> !IsNumericChar(prefix[i])
    requires |tail| > 0 && IsNumericChar(tail[0])
    ensures SkipNonNumeric(s) == |prefix|
    decreases |prefix|
  {
    if |prefix| > 0 {
      assert s[1..] == prefix[1..] + tail;
      SkipNonNumericOf(s[1..], prefix[1..], tail);
    }
  }

  /** The longest run of digits and dots is one that the rest does not continue. */
  lemma {:induction false} NumericRunOf(s: string, run: string, rest: string)
    requires s == run + rest
    requires AllNumeric(run)
    requires |rest| > 0 ==> !IsNumericChar(rest[0])
    ensures NumericRun(s) == |run|
    decreases |run|
  {
    if |run| > 0 {
      assert s[1..] == run[1..] + rest;
      NumericRunOf(s[1..], run[1..], rest);
    }
  }

  /**
   * The capture groups are determined by the split of the string into text
   * with no digit or dot, a non-empty run of digits and dots, and a rest
   * that does not continue the run: the whole match is the run and the
   * rest, group 1 is the run and group 2 the rest.
   */
  lemma MarketingMatchOf(marketing: string, prefix: string, numeric: string, rest: string)
    requires marketing == prefix + numeric + rest
    requires forall i :: 0 <= i < |prefix| ==> !IsNumericChar(prefix[i])
    requires |numeric| > 0 && AllNumeric(numeric)
    requires |rest| > 0 ==> !IsNumericChar(rest[0])
    ensures MarketingMatch(marketing) == Some([numeric + rest, numeric, rest])
  {
    var tail := numeric + rest;
    assert marketing == prefix + tail;
    assert tail[0] == numeric[0];
    SkipNonNumericOf(marketing, prefix, tail);
    assert marketing[|prefix|..] == tail;
    NumericRunOf(tail, numeric, rest);
    assert tail[..|numeric|] == numeric;
    assert tail[|numeric|..] == rest;
  }

  lemma {:induction false} SkipNonNumericPrefix(prefix: string, s: string)
    requires forall i :: 0 <= i < |prefix| ==> !IsNumericChar(prefix[i])
    ensures SkipNonNumeric(prefix + s) == |prefix| + SkipNonNumeric(s)
    decreases |prefix|
  {
    if |prefix| > 0 {
      assert (prefix + s)[0] == prefix[0];
      assert (prefix + s)[1..] == prefix[1..] + s;
      SkipNonNumericPrefix(prefix[1..], s);
    } else {
      assert prefix + s == s;
    }
  }

  /** The unanchored match ignores any text before the first digit or dot. */
  lemma MarketingMatchIgnoresPrefix(prefix: string, s: string)
    requires forall i :: 0 <= i < |prefix| ==> !IsNumericChar(prefix[i])
    ensures MarketingMatch(prefix + s) == MarketingMatch(s)
  {
    SkipNonNumericPrefix(prefix, s);
    var start := SkipNonNumeric(s);
    assert (prefix + s)[|prefix| + start..] == s[start..];
  }

  /** The numeric part and the additional text of a marketing version split as in `MarketingMatchOf`. */
  lemma MarketingPartsOf(marketing: string, prefix: string, numeric: string, rest: string)
    requires marketing == prefix + numeric + rest
    requires forall i :: 0 <= i < |prefix| ==> !IsNumericChar(prefix[i])
    requires |numeric| > 0 && AllNumeric(numeric)
    requires |rest| > 0 ==> !IsNumericChar(rest[0])
    ensures NumericMarketing(marketing) == numeric
    ensures AdditionalText(marketing) == Some(rest)
  {
    MarketingMatchOf(marketing, prefix, numeric, rest);
  }

  /** The numeric part starts or ends with a dot (the check at lines 41-43). */
  predicate DotAtEdge(numeric: string) {
    |numeric| > 0 && (numeric[0] == '.' || numeric[|numeric| - 1] == '.')
  }

  // ---------------------------------------------------------------------
  // Parsing
  // ---------------------------------------------------------------------

  /** `Int(_:)` applied to each piece, failing as soon as one piece fails (the throwing `map` at lines 47-53). */
  function ParseComponents(pieces: seq<string>): (r: Option<seq<int>>)
    ensures r.Some? <==> forall i :: 0 <= i < |pieces| ==> ParseInt(pieces[i]).Some?
    ensures r.Some? ==>
      |r.value| == |pieces| && forall i :: 0 <= i < |pieces| ==> ParseInt(pieces[i]) == Some(r.value[i])
    decreases |pieces|
  {
    if |pieces| == 0 then Some([])
    else
      match ParseInt(pieces[0])
      case None => None
      case Some(n) =>
        match ParseComponents(pieces[1..])
        case None => None
        case Some(rest) => Some([n] + rest)
  }

  /** The build number a build string gives (lines 26-32): none for the development build "0", else `Int(build ?? "")`. */
  function BuildNumber(build: Option<string>): (number: Option<int>) {
    if build == Some("0") then None else ParseInt(build.GetOr(""))
  }

  /**
   * The private `init(optMarketing:optBuild:)`. The build string "0" marks
   * a development build and leaves the build number nil; any other build
   * string becomes `Int(build)`, which is nil when it is not an integer.
   * The final emptiness check reads the build *string* argument, so a
   * version with no components but some build string, even one that is
   * not a number, is accepted.
   */
  function ParseFields(marketing: Option<string>, build: Option<string>): (r: Result<Version, VersionError>)
    ensures r.Ok? ==> WellFormed(r.value)
  {
    var isDevelopment := build == Some("0");
    var parsedBuild := BuildNumber(build);
    match marketing
    case None =>
      if build.None? then Err(InvalidVersionString)
      else Ok(Version([], parsedBuild, None, isDevelopment))
    case Some(m) =>
      var numeric := NumericMarketing(m);
      if DotAtEdge(numeric) then Err(InvalidVersionString)
      else
        match ParseComponents(Split(numeric, '.'))
        case None => Err(InvalidVersionString)
        case Some(components) =>
          NumericComponentsNonNegative(numeric, components);
          if |components| == 0 && build.None? then Err(InvalidVersionString)
          else Ok(Version(components, parsedBuild, AdditionalText(m), isDevelopment))
  }

  /** `init(string:)`: "@" and then a build only, or a marketing part and at most one build part separated by '@'. */
  function FromString(s: string): (r: Result<Version, VersionError>)
    ensures r.Ok? ==> WellFormed(r.value)
  {
    if |s| > 0 && s[0] == '@' then
      FromBuild(s[1..])
    else
      var marketingAndBuild := Split(s, '@');
      if |marketingAndBuild| == 0 || |marketingAndBuild| > 2 then
        Err(InvalidVersionString)
      else
        var marketing := if marketingAndBuild[0] == "" then None else Some(marketingAndBuild[0]);
        var build := if |marketingAndBuild| == 2 then Some(marketingAndBuild[1]) else None;
        ParseFields(marketing, build)
  }

  /** `init(marketing:build:)`. */
  function FromMarketing(marketing: string, build: Option<string>): (r: Result<Version, VersionError>)
    ensures r.Ok? ==> WellFormed(r.value) && r.value.isDevelopment == (build == Some("0"))
  {
    ParseFields(Some(marketing), build)
  }

  /** `init(build:)`: never fails, since the build string itself is present. */
  function FromBuild(build: string): (r: Result<Version, VersionError>)
    ensures r.Ok? && r.value.marketingComponents == [] && r.value.additionalText.None?
    ensures r.value.isDevelopment == (build == "0")
  {
    ParseFields(None, Some(build))
  }

  /** Every piece of a run of digits and dots split at the dots is a non-empty string of digits. */
  lemma {:induction false} NumericPiecesAreDigits(s: string)
    requires AllNumeric(s)
    ensures forall i :: 0 <= i < |Split(s, '.')| ==> AllDigits(Split(s, '.')[i])
    decreases |s|
  {
    var k := Find(s, '.');
    if k < |s| {
      NumericPiecesAreDigits(s[k + 1..]);
      var rest := Split(s[k + 1..], '.');
      var head: seq<string> := if k == 0 then [] else [s[..k]];
      assert Split(s, '.') == head + rest;
      forall i | 0 <= i < |head + rest|
        ensures AllDigits((head + rest)[i])
      {
        if i < |head| {
          assert (head + rest)[i] == s[..k];
        } else {
          assert (head + rest)[i] == rest[i - |head|];
        }
      }
    }
  }

  /** The components read from a numeric part are never negative. */
  lemma NumericComponentsNonNegative(numeric: string, components: seq<int>)
    requires AllNumeric(numeric)
    requires ParseComponents(Split(numeric, '.')) == Some(components)
    ensures forall i :: 0 <= i < |components| ==> components[i] >= 0
  {
    NumericPiecesAreDigits(numeric);
  }

  /**
   * When parsing fails: the numeric part has a dot at either end (lines
   * 41-43), or there are no components and no build string (lines 59-61).
   * The throw inside the component `map` (lines 47-53) never fires, since
   * every piece between the dots is a non-empty run of digits.
   */
  lemma ParseFieldsFails(marketing: Option<string>, build: Option<string>)
    ensures ParseFields(marketing, build).Err? <==>
      || (marketing.Some? && DotAtEdge(NumericMarketing(marketing.value)))
      || (build.None? && (marketing.None? || NumericMarketing(marketing.value) == ""))
  {
    if marketing.Some? {
      NumericPartParses(NumericMarketing(marketing.value));
    }
  }

  /** A run of digits and dots without a dot at either end splits into components, at least one unless the run is empty. */
  lemma NumericPartParses(numeric: string)
    requires AllNumeric(numeric)
    ensures ParseComponents(Split(numeric, '.')).Some?
    ensures !DotAtEdge(numeric) ==> (|ParseComponents(Split(numeric, '.')).value| == 0 <==> numeric == "")
  {
    NumericPiecesAreDigits(numeric);
    if !DotAtEdge(numeric) && numeric != "" {
      assert Find(numeric, '.') > 0;
    }
  }

  /** The build fields: the build string "0" gives a development build with no number, any other gives `Int(build)` (lines 26-32). */
  lemma ParseFieldsBuild(marketing: Option<string>, build: Option<string>)
    requires ParseFields(marketing, build).Ok?
    ensures ParseFields(marketing, build).value.isDevelopment == (build == Some("0"))
    ensures ParseFields(marketing, build).value.build ==
      if build == Some("0") then None else ParseInt(build.GetOr(""))
  {
  }

  /**
   * The marketing fields do not depend on the build string, and a version
   * that parses without a build string also parses with any build string.
   */
  lemma ParseFieldsBuildIndependent(marketing: Option<string>, build: Option<string>, otherBuild: Option<string>)
    requires ParseFields(marketing, build).Ok?
    ensures otherBuild.Some? ==> ParseFields(marketing, otherBuild).Ok?
    ensures ParseFields(marketing, otherBuild).Ok? ==>
      ParseFields(marketing, otherBuild).value == ParseFields(marketing, build).value.(
        build := BuildNumber(otherBuild), isDevelopment := otherBuild == Some("0"))
  {
    ParseFieldsFails(marketing, build);
    ParseFieldsFails(marketing, otherBuild);
  }

  /** Text before the first digit or dot of a marketing version is dropped: "v1.2" parses as "1.2" does. */
  lemma LeadingTextIsDropped(prefix: string, marketing: string, build: Option<string>)
    requires forall i :: 0 <= i < |prefix| ==> !IsNumericChar(prefix[i])
    ensures FromMarketing(prefix + marketing, build) == FromMarketing(marketing, build)
  {
    MarketingMatchIgnoresPrefix(prefix, marketing);
  }

  /** The text after the numeric part is carried along and changes nothing else: "1.2.3-test" and "1.2.3-different-text" parse alike but for it. */
  lemma AdditionalTextIsKept(numeric: string, text: string, other: string, build: Option<string>)
    requires |numeric| > 0 && AllNumeric(numeric)
    requires |text| > 0 ==> !IsNumericChar(text[0])
    requires |other| > 0 ==> !IsNumericChar(other[0])
    ensures FromMarketing(numeric + text, build).Ok? == FromMarketing(numeric + other, build).Ok?
    ensures FromMarketing(numeric + text, build).Ok? ==>
      FromMarketing(numeric + other, build).value == FromMarketing(numeric + text, build).value.(additionalText := Some(other))
  {
    assert numeric + text == "" + numeric + text;
    assert numeric + other == "" + numeric + other;
    MarketingPartsOf(numeric + text, "", numeric, text);
    MarketingPartsOf(numeric + other, "", numeric, other);
    ParseFieldsOfSameNumeric(numeric + text, numeric + other, build);
  }

  /** Two marketing versions with the same numeric part parse alike, but for the additional text. */
  lemma ParseFieldsOfSameNumeric(marketing: string, other: string, build: Option<string>)
    requires NumericMarketing(marketing) == NumericMarketing(other)
    ensures FromMarketing(marketing, build).Ok? == FromMarketing(other, build).Ok?
    ensures FromMarketing(marketing, build).Ok? ==>
      FromMarketing(other, build).value == FromMarketing(marketing, build).value.(additionalText := AdditionalText(other))
  {
  }

  lemma AllNumericAppend(x: string, y: string)
    ensures AllNumeric(x + y) <==> AllNumeric(x) && AllNumeric(y)
  {
    if AllNumeric(x + y) {
      assert forall i :: 0 <= i < |x| ==> x[i] == (x + y)[i];
      assert forall i :: 0 <= i < |y| ==> y[i] == (x + y)[|x| + i];
    }
  }

  /** Two marketing versions whose numeric parts have the same dot pieces and edges, and whose additional texts agree, parse alike. */
  lemma ParseFieldsOfSameParts(marketing: string, other: string, build: Option<string>)
    requires DotAtEdge(NumericMarketing(marketing)) == DotAtEdge(NumericMarketing(other))
    requires Split(NumericMarketing(marketing), '.') == Split(NumericMarketing(other), '.')
    requires AdditionalText(marketing) == AdditionalText(other)
    ensures FromMarketing(marketing, build) == FromMarketing(other, build)
  {
  }

  /** Doubling a dot inside a numeric run keeps it numeric and leaves its ends alone. */
  lemma DoubledDotNumeric(a: string, b: string)
    requires AllNumeric(a) && AllNumeric(b)
    ensures AllNumeric(a + (['.', '.'] + b)) && AllNumeric(a + (['.'] + b))
    ensures DotAtEdge(a + (['.', '.'] + b)) == DotAtEdge(a + (['.'] + b))
  {
    AllNumericAppend(['.', '.'], b);
    AllNumericAppend(['.'], b);
    AllNumericAppend(a, ['.', '.'] + b);
    AllNumericAppend(a, ['.'] + b);
    var doubled, single := a + (['.', '.'] + b), a + (['.'] + b);
    assert doubled[0] == single[0];
    assert doubled[|doubled| - 1] == single[|single| - 1];
  }

  /** The pieces between dots drop empty ones, so a doubled dot in the numeric part reads as one: "1..2" parses as "1.2" does. */
  lemma DoubledDotIsDropped(prefix: string, a: string, b: string, rest: string, build: Option<string>)
    requires forall i :: 0 <= i < |prefix| ==> !IsNumericChar(prefix[i])
    requires AllNumeric(a) && AllNumeric(b)
    requires |rest| > 0 ==> !IsNumericChar(rest[0])
    ensures FromMarketing(prefix + (a + (['.', '.'] + b)) + rest, build) == FromMarketing(prefix + (a + (['.'] + b)) + rest, build)
  {
    var doubled, single := a + (['.', '.'] + b), a + (['.'] + b);
    DoubledDotNumeric(a, b);
    MarketingPartsOf(prefix + doubled + rest, prefix, doubled, rest);
    MarketingPartsOf(prefix + single + rest, prefix, single, rest);
    SplitDoubledSeparator(a, b, '.');
    ParseFieldsOfSameParts(prefix + doubled + rest, prefix + single + rest, build);
  }

  /** Empty pieces between '@' separators are dropped: "1@@2" parses as "1@2" does. */
  lemma DoubledAtIsDropped(marketing: string, build: string)
    requires |marketing| > 0 && marketing[0] != '@'
    ensures FromString(marketing + "@@" + build) == FromString(marketing + "@" + build)
  {
    SplitDoubledSeparator(marketing, build, '@');
    assert marketing + "@@" + build == marketing + (['@', '@'] + build);
    assert marketing + "@" + build == marketing + (['@'] + build);
    assert (marketing + "@@" + build)[0] == marketing[0];
    assert (marketing + "@" + build)[0] == marketing[0];
  }

  /** An '@' at the end is dropped: "1@" parses as "1" does, with no build. */
  lemma TrailingAtIsDropped(marketing: string)
    requires |marketing| > 0 && marketing[0] != '@'
    ensures FromString(marketing + "@") == FromString(marketing)
  {
    SplitTrailingSeparator(marketing, '@');
    assert (marketing + "@")[0] == marketing[0];
  }

  /** Parsing "marketing@build" as a whole string agrees with `init(marketing:build:)`. */
  lemma FromStringAgreesWithFromMarketing(marketing: string, build: string)
    requires marketing != "" && '@' !in marketing
    requires build != "" && '@' !in build
    ensures FromString(marketing + "@" + build) == FromMarketing(marketing, Some(build))
  {
    assert marketing[0] in marketing;
    SplitJoin([marketing, build], '@');
    assert Join([marketing, build], '@') == marketing + "@" + build;
  }

  /** Parsing a string without '@' agrees with `init(marketing:build:)` with no build. */
  lemma FromStringAgreesWithMarketingOnly(marketing: string)
    requires marketing != "" && '@' !in marketing
    ensures FromString(marketing) == FromMarketing(marketing, None)
  {
    assert marketing[0] in marketing;
    SplitJoin([marketing], '@');
  }

  /** Parsing "@build" as a whole string is `init(build:)` of everything after the '@'. */
  lemma FromStringAgreesWithFromBuild(build: string)
    ensures FromString("@" + build) == FromBuild(build)
  {
    assert ("@" + build)[1..] == build;
  }

  // ---------------------------------------------------------------------
  // Rendering
  // ---------------------------------------------------------------------

  /** `marketingComponents.map { "\($0)" }`. */
  function RenderedComponents(components: seq<int>): (pieces: seq<string>) {
    seq(|components|, i requires 0 <= i < |components| => IntToString(components[i]))
  }

  /** `description`: the components joined by dots, then the additional text, then "@" and the build number if there is one. */
  function Description(v: Version): (s: string) {
    Join(RenderedComponents(v.marketingComponents), '.')
      + v.additionalText.GetOr("")
      + (if v.build.None? then "" else "@" + IntToString(v.build.value))
  }

  /**
   * The versions whose description parses back to themselves: at least one
   * component, none negative; additional text present, holding no '@' and
   * not starting with a digit or a dot; a build number other than zero if
   * any; not a development build (which renders without its "@0").
   */
  ghost predicate Canonical(v: Version) {
    && |v.marketingComponents| > 0
    && (forall i :: 0 <= i < |v.marketingComponents| ==> v.marketingComponents[i] >= 0)
    && v.additionalText.Some?
    && '@' !in v.additionalText.value
    && (|v.additionalText.value| > 0 ==> !IsNumericChar(v.additionalText.value[0]))
    && (v.build.Some? ==> v.build.value != 0)
    && !v.isDevelopment
  }

  /** Non-negative components joined by dots form a run of digits and dots that starts and ends with a digit. */
  lemma {:induction false} JoinedComponentsNumeric(components: seq<int>)
    requires |components| > 0
    requires forall i :: 0 <= i < |components| ==> components[i] >= 0
    ensures var joined := Join(RenderedComponents(components), '.');
      && |joined| > 0 && AllNumeric(joined)
      && IsDigit(joined[0]) && IsDigit(joined[|joined| - 1])
    decreases |components|
  {
    var pieces := RenderedComponents(components);
    var first := NatToString(components[0]);
    assert pieces[0] == first;
    if |components| > 1 {
      assert pieces[1..] == RenderedComponents(components[1..]);
      JoinedComponentsNumeric(components[1..]);
      var rest := Join(pieces[1..], '.');
      var joined := first + ['.'] + rest;
      assert Join(pieces, '.') == joined;
      assert joined[|joined| - 1] == rest[|rest| - 1];
      assert forall i :: 0 <= i < |joined| ==> IsNumericChar(joined[i]) by {
        forall i | 0 <= i < |joined|
          ensures IsNumericChar(joined[i])
        {
          if i < |first| {
            assert joined[i] == first[i];
          } else if i > |first| {
            assert joined[i] == rest[i - |first| - 1];
          }
        }
      }
    }
  }

  /** The regular expression splits non-negative components joined by dots, followed by text that does not start with a digit or a dot, into those two parts. */
  lemma MarketingOfJoined(components: seq<int>, text: string)
    requires |components| > 0
    requires forall i :: 0 <= i < |components| ==> components[i] >= 0
    requires |text| > 0 ==> !IsNumericChar(text[0])
    ensures var joined := Join(RenderedComponents(components), '.');
      && NumericMarketing(joined + text) == joined
      && AdditionalText(joined + text) == Some(text)
      && !DotAtEdge(joined)
  {
    var joined := Join(RenderedComponents(components), '.');
    JoinedComponentsNumeric(components);
    assert joined + text == "" + joined + text;
    MarketingPartsOf(joined + text, "", joined, text);
  }

  /** The numeric part of a rendered version splits back into its rendered components, which read back as the components. */
  lemma ComponentsOfJoined(components: seq<int>)
    requires forall i :: 0 <= i < |components| ==> components[i] >= 0
    ensures ParseComponents(Split(Join(RenderedComponents(components), '.'), '.')) == Some(components)
  {
    var pieces := RenderedComponents(components);
    forall i | 0 <= i < |pieces|
      ensures pieces[i] != [] && '.' !in pieces[i]
      ensures ParseInt(pieces[i]) == Some(components[i])
    {
      assert pieces[i] == NatToString(components[i]);
      assert forall j :: 0 <= j < |pieces[i]| ==> IsDigit(pieces[i][j]);
      ParseIntOfIntToString(components[i]);
    }
    SplitJoin(pieces, '.');
    var parsed := ParseComponents(pieces);
    assert parsed.Some?;
    assert forall i :: 0 <= i < |components| ==> parsed.value[i] == components[i];
    assert parsed.value == components;
  }

  /** The text a version renders before any "@build": the joined components and the additional text, if any. */
  function MarketingText(v: Version): (text: string) {
    Join(RenderedComponents(v.marketingComponents), '.') + v.additionalText.GetOr("")
  }

  /** The build text a version renders after its "@", if it has a build number. */
  function BuildText(v: Version): (text: Option<string>) {
    if v.build.None? then None else Some(IntToString(v.build.value))
  }

  /** The private initializer rebuilds a canonical version from its rendered marketing and build texts. */
  lemma ParseFieldsOfRendered(v: Version)
    requires Canonical(v)
    ensures ParseFields(Some(MarketingText(v)), BuildText(v)) == Ok(v)
  {
    MarketingOfJoined(v.marketingComponents, v.additionalText.value);
    ComponentsOfJoined(v.marketingComponents);
    if v.build.Some? {
      IntToStringIsZero(v.build.value);
      ParseIntOfIntToString(v.build.value);
    }
  }

  /** The rendered marketing text is non-empty and holds no '@'. */
  lemma MarketingTextHasNoAt(v: Version)
    requires Canonical(v)
    ensures |MarketingText(v)| > 0 && MarketingText(v)[0] != '@' && '@' !in MarketingText(v)
  {
    var joined := Join(RenderedComponents(v.marketingComponents), '.');
    var text := v.additionalText.value;
    var marketing := joined + text;
    JoinedComponentsNumeric(v.marketingComponents);
    forall j | 0 <= j < |marketing|
      ensures marketing[j] != '@'
    {
      if j < |joined| {
        assert marketing[j] == joined[j];
      } else {
        assert marketing[j] == text[j - |joined|];
      }
    }
  }

  /** A description is its marketing text, followed by "@" and the build text when there is a build number. */
  lemma DescriptionParts(v: Version)
    ensures BuildText(v).None? ==> Description(v) == MarketingText(v)
    ensures BuildText(v).Some? ==> Description(v) == MarketingText(v) + "@" + BuildText(v).value
  {
  }

  /** A rendered build number is non-empty and holds no '@'. */
  lemma BuildTextHasNoAt(v: Version)
    requires BuildText(v).Some?
    ensures BuildText(v).value != "" && '@' !in BuildText(v).value
  {
    var buildText := BuildText(v).value;
    assert forall j :: 0 <= j < |buildText| ==> buildText[j] == '-' || IsDigit(buildText[j]);
  }

  /** Rendering then parsing: the description of a canonical version parses back to that version. */
  lemma DescriptionRoundTrip(v: Version)
    requires Canonical(v)
    ensures FromString(Description(v)) == Ok(v)
  {
    MarketingTextHasNoAt(v);
    ParseFieldsOfRendered(v);
    DescriptionParts(v);
    if v.build.None? {
      FromStringAgreesWithMarketingOnly(MarketingText(v));
    } else {
      BuildTextHasNoAt(v);
      FromStringAgreesWithFromMarketing(MarketingText(v), BuildText(v).value);
    }
  }

  // ---------------------------------------------------------------------
  // Zero-padded components
  // ---------------------------------------------------------------------

  /** The closure at lines 96 and 114: a side that has run out counts as zero. */
  function ZeroFilled(pairs: seq<Pair<int>>): (filled: seq<(int, int)>) {
    seq(|pairs|, i requires 0 <= i < |pairs| => (pairs[i].0.GetOr(0), pairs[i].1.GetOr(0)))
  }

  /** `Zip2WithNilPadding(lhs, rhs).map { ($0.0 ?? 0, $0.1 ?? 0) }`. */
  function PairedComponents(lhs: seq<int>, rhs: seq<int>): (pairs: seq<(int, int)>) {
    ZeroFilled(PaddedZip(lhs, rhs))
  }

  /** Component `i`, reading zero past the end. */
  function ComponentAt(components: seq<int>, i: int): (c: int) {
    if 0 <= i < |components| then components[i] else 0
  }

  function FirstSide(pairs: seq<(int, int)>): (side: seq<int>) {
    seq(|pairs|, i requires 0 <= i < |pairs| => pairs[i].0)
  }

  function SecondSide(pairs: seq<(int, int)>): (side: seq<int>) {
    seq(|pairs|, i requires 0 <= i < |pairs| => pairs[i].1)
  }

  function Zeros(n: nat): (zeros: seq<int>) {
    seq(n, _ => 0)
  }

  /** There are as many pairs as the longer side has components, and pair `i` holds component `i` of each side. */
  lemma PairedComponentsAt(lhs: seq<int>, rhs: seq<int>, i: int)
    ensures |PairedComponents(lhs, rhs)| == Max(|lhs|, |rhs|)
    ensures 0 <= i < Max(|lhs|, |rhs|) ==>
      PairedComponents(lhs, rhs)[i] == (ComponentAt(lhs, i), ComponentAt(rhs, i))
  {
    PaddedZipLength(lhs, rhs);
    if 0 <= i < Max(|lhs|, |rhs|) {
      PaddedZipAt(lhs, rhs, i);
    }
  }

  /** Zero-filling makes both sides as long as the longer one, the shorter one extended by trailing zeros only. */
  lemma PairedComponentsSides(lhs: seq<int>, rhs: seq<int>)
    ensures FirstSide(PairedComponents(lhs, rhs)) == lhs + Zeros(Max(|lhs|, |rhs|) - |lhs|)
    ensures SecondSide(PairedComponents(lhs, rhs)) == rhs + Zeros(Max(|lhs|, |rhs|) - |rhs|)
  {
    var pairs := PairedComponents(lhs, rhs);
    PairedComponentsAt(lhs, rhs, 0);
    forall i | 0 <= i < |pairs|
      ensures FirstSide(pairs)[i] == (lhs + Zeros(Max(|lhs|, |rhs|) - |lhs|))[i]
      ensures SecondSide(pairs)[i] == (rhs + Zeros(Max(|lhs|, |rhs|) - |rhs|))[i]
    {
      PairedComponentsAt(lhs, rhs, i);
    }
  }

  /** Component lists that agree once both are padded with zeros. */
  ghost predicate SameComponents(lhs: seq<int>, rhs: seq<int>) {
    forall i :: ComponentAt(lhs, i) == ComponentAt(rhs, i)
  }

  /** At the first index where the zero-padded lists differ, `lhs` is smaller. */
  ghost predicate ComponentsBelow(lhs: seq<int>, rhs: seq<int>) {
    exists k :: 0 <= k && ComponentAt(lhs, k) < ComponentAt(rhs, k)
      && forall i :: 0 <= i < k ==> ComponentAt(lhs, i) == ComponentAt(rhs, i)
  }

  // ---------------------------------------------------------------------
  // Equality
  // ---------------------------------------------------------------------

  /** The `reduce` at lines 99-101: `true && (p0 agrees) && (p1 agrees) && ...`, folded from the left. */
  function AllPairsEqual(pairs: seq<(int, int)>): (equal: bool)
    decreases |pairs|
  {
    if |pairs| == 0 then true
    else AllPairsEqual(pairs[..|pairs| - 1]) && pairs[|pairs| - 1].0 == pairs[|pairs| - 1].1
  }

  /** `lhs == rhs`: zero-padded components agree and the build numbers are equal; the additional text and the development flag play no part. */
  predicate Equal(lhs: Version, rhs: Version) {
    AllPairsEqual(PairedComponents(lhs.marketingComponents, rhs.marketingComponents))
      && lhs.build == rhs.build
  }

  lemma {:induction false} AllPairsEqualIff(pairs: seq<(int, int)>)
    ensures AllPairsEqual(pairs) <==> forall i :: 0 <= i < |pairs| ==> pairs[i].0 == pairs[i].1
    decreases |pairs|
  {
    if |pairs| > 0 {
      var init := pairs[..|pairs| - 1];
      AllPairsEqualIff(init);
      assert forall i :: 0 <= i < |init| ==> init[i] == pairs[i];
    }
  }

  /** `==` is equality of the zero-padded component lists together with equality of the build numbers. */
  lemma EqualIff(lhs: Version, rhs: Version)
    ensures Equal(lhs, rhs) <==>
      SameComponents(lhs.marketingComponents, rhs.marketingComponents) && lhs.build == rhs.build
  {
    var a, b := lhs.marketingComponents, rhs.marketingComponents;
    var pairs := PairedComponents(a, b);
    AllPairsEqualIff(pairs);
    PairedComponentsAt(a, b, 0);
    if AllPairsEqual(pairs) {
      forall i
        ensures ComponentAt(a, i) == ComponentAt(b, i)
      {
        PairedComponentsAt(a, b, i);
      }
    }
    if SameComponents(a, b) {
      forall i | 0 <= i < |pairs|
        ensures pairs[i].0 == pairs[i].1
      {
        PairedComponentsAt(a, b, i);
      }
    }
  }

  /** `==` is an equivalence relation, as `Equatable` requires. */
  lemma EqualIsEquivalence(a: Version, b: Version, c: Version)
    ensures Equal(a, a)
    ensures Equal(a, b) ==> Equal(b, a)
    ensures Equal(a, b) && Equal(b, c) ==> Equal(a, c)
  {
    EqualIff(a, a);
    EqualIff(a, b);
    EqualIff(b, a);
    EqualIff(b, c);
    EqualIff(a, c);
  }

  /** `==` ignores the additional text and the development flag. */
  lemma EqualIgnoresTextAndDevelopment(lhs: Version, rhs: Version, text: Option<string>, isDevelopment: bool)
    ensures Equal(lhs.(additionalText := text, isDevelopment := isDevelopment), rhs) == Equal(lhs, rhs)
  {
  }

  // ---------------------------------------------------------------------
  // Ordering
  // ---------------------------------------------------------------------

  datatype Ordering = Below | Same | Above

  /** The `for` loop at lines 117-125 as a function: the first pair whose sides differ decides. */
  function ComparePairs(pairs: seq<(int, int)>): (order: Ordering)
    decreases |pairs|
  {
    if |pairs| == 0 then Same
    else if pairs[0].0 < pairs[0].1 then Below
    else if pairs[0].0 > pairs[0].1 then Above
    else ComparePairs(pairs[1..])
  }

  /** `lhs < rhs` does not trap: the force-unwraps at line 110 only run when both component lists are empty, and then need both build numbers. */
  predicate Comparable(lhs: Version, rhs: Version) {
    || |lhs.marketingComponents| > 0
    || |rhs.marketingComponents| > 0
    || (lhs.build.Some? && rhs.build.Some?)
  }

  /**
   * `lhs < rhs`: with no components on either side, the build numbers
   * decide; otherwise the first differing zero-padded component; on a tie,
   * a release is below a development build; failing that, the build
   * numbers, nil counting as zero.
   */
  predicate Less(lhs: Version, rhs: Version)
    requires Comparable(lhs, rhs)
  {
    if |lhs.marketingComponents| == 0 && |rhs.marketingComponents| == 0 then
      lhs.build.value < rhs.build.value
    else
      match ComparePairs(PairedComponents(lhs.marketingComponents, rhs.marketingComponents))
      case Below => true
      case Above => false
      case Same =>
        if !lhs.isDevelopment && rhs.isDevelopment then true
        else if lhs.isDevelopment && !rhs.isDevelopment then false
        else lhs.build.GetOr(0) < rhs.build.GetOr(0)
  }

  /** The operator `<` as written: the special case, then a loop over the zero-filled pairs with early returns. */
  method LessThan(lhs: Version, rhs: Version) returns (less: bool)
    requires Comparable(lhs, rhs)
    ensures less == Less(lhs, rhs)
  {
    if |lhs.marketingComponents| == 0 && |rhs.marketingComponents| == 0 {
      return lhs.build.value < rhs.build.value;
    }
    var zipped := Collect(lhs.marketingComponents, rhs.marketingComponents);
    var components := ZeroFilled(zipped);
    for i := 0 to |components|
      invariant ComparePairs(components[i..]) == ComparePairs(components)
    {
      var element := components[i];
      if element.0 < element.1 {
        return true;
      }
      if element.0 > element.1 {
        return false;
      }
      assert components[i..][1..] == components[i + 1..];
    }
    if !lhs.isDevelopment && rhs.isDevelopment {
      return true;
    }
    if lhs.isDevelopment && !rhs.isDevelopment {
      return false;
    }
    return lhs.build.GetOr(0) < rhs.build.GetOr(0);
  }

  /** The index of the first pair whose sides differ, or the number of pairs when there is none. */
  function FirstDifference(pairs: seq<(int, int)>): (k: nat)
    ensures k <= |pairs|
    ensures forall i :: 0 <= i < k ==> pairs[i].0 == pairs[i].1
    ensures k < |pairs| ==> pairs[k].0 != pairs[k].1
    decreases |pairs|
  {
    if |pairs| == 0 || pairs[0].0 != pairs[0].1 then 0 else 1 + FirstDifference(pairs[1..])
  }

  /** `ComparePairs` is decided by the first pair whose sides differ. */
  lemma {:induction false} ComparePairsAtFirstDifference(pairs: seq<(int, int)>)
    ensures var k := FirstDifference(pairs);
      ComparePairs(pairs) == if k == |pairs| then Same else if pairs[k].0 < pairs[k].1 then Below else Above
    decreases |pairs|
  {
    if |pairs| > 0 && pairs[0].0 == pairs[0].1 {
      var rest := pairs[1..];
      ComparePairsAtFirstDifference(rest);
      var k := FirstDifference(rest);
      assert k < |rest| ==> pairs[k + 1] == rest[k];
    }
  }

  /** What `ComparePairs` decides, stated without recursion: the first pair that differs, or none. */
  lemma ComparePairsIff(pairs: seq<(int, int)>)
    ensures ComparePairs(pairs) == Same <==> forall i :: 0 <= i < |pairs| ==> pairs[i].0 == pairs[i].1
    ensures ComparePairs(pairs) == Below <==>
      exists k :: 0 <= k < |pairs| && pairs[k].0 < pairs[k].1
        && forall i :: 0 <= i < k ==> pairs[i].0 == pairs[i].1
    ensures ComparePairs(pairs) == Above <==>
      exists k :: 0 <= k < |pairs| && pairs[k].0 > pairs[k].1
        && forall i :: 0 <= i < k ==> pairs[i].0 == pairs[i].1
  {
    ComparePairsAtFirstDifference(pairs);
    var first := FirstDifference(pairs);
    if exists k :: 0 <= k < |pairs| && pairs[k].0 < pairs[k].1
        && forall i :: 0 <= i < k ==> pairs[i].0 == pairs[i].1 {
      var k :| 0 <= k < |pairs| && pairs[k].0 < pairs[k].1
        && forall i :: 0 <= i < k ==> pairs[i].0 == pairs[i].1;
      assert k == first;
    }
    if exists k :: 0 <= k < |pairs| && pairs[k].0 > pairs[k].1
        && forall i :: 0 <= i < k ==> pairs[i].0 == pairs[i].1 {
      var k :| 0 <= k < |pairs| && pairs[k].0 > pairs[k].1
        && forall i :: 0 <= i < k ==> pairs[i].0 == pairs[i].1;
      assert k == first;
    }
  }

  /** Pair `i` of the zero-filled pairs holds component `i` of each side, and past the pairs both sides read zero. */
  lemma PairedComponentsEverywhere(lhs: seq<int>, rhs: seq<int>)
    ensures forall i :: 0 <= i < |PairedComponents(lhs, rhs)| ==>
      PairedComponents(lhs, rhs)[i] == (ComponentAt(lhs, i), ComponentAt(rhs, i))
    ensures forall i :: |PairedComponents(lhs, rhs)| <= i ==> ComponentAt(lhs, i) == 0 && ComponentAt(rhs, i) == 0
  {
    var pairs := PairedComponents(lhs, rhs);
    PairedComponentsAt(lhs, rhs, 0);
    forall i | 0 <= i < |pairs|
      ensures pairs[i] == (ComponentAt(lhs, i), ComponentAt(rhs, i))
    {
      PairedComponentsAt(lhs, rhs, i);
    }
  }

  /** Comparing the zero-filled pairs is comparing the zero-padded component lists. */
  lemma ComparePairedIff(lhs: seq<int>, rhs: seq<int>)
    ensures ComparePairs(PairedComponents(lhs, rhs)) == Same <==> SameComponents(lhs, rhs)
    ensures ComparePairs(PairedComponents(lhs, rhs)) == Below <==> ComponentsBelow(lhs, rhs)
    ensures ComparePairs(PairedComponents(lhs, rhs)) == Above <==> ComponentsBelow(rhs, lhs)
  {
    ComparePairedSame(lhs, rhs);
    ComparePairedBelow(lhs, rhs);
    ComparePairedAbove(lhs, rhs);
  }

  lemma ComparePairedSame(lhs: seq<int>, rhs: seq<int>)
    ensures ComparePairs(PairedComponents(lhs, rhs)) == Same <==> SameComponents(lhs, rhs)
  {
    var pairs := PairedComponents(lhs, rhs);
    ComparePairsIff(pairs);
    PairedComponentsEverywhere(lhs, rhs);
    if forall i :: 0 <= i < |pairs| ==> pairs[i].0 == pairs[i].1 {
      forall i
        ensures ComponentAt(lhs, i) == ComponentAt(rhs, i)
      {
        if 0 <= i < |pairs| {
          assert pairs[i].0 == pairs[i].1;
        }
      }
    }
  }

  lemma ComparePairedBelow(lhs: seq<int>, rhs: seq<int>)
    ensures ComparePairs(PairedComponents(lhs, rhs)) == Below <==> ComponentsBelow(lhs, rhs)
  {
    var pairs := PairedComponents(lhs, rhs);
    ComparePairsIff(pairs);
    PairedComponentsEverywhere(lhs, rhs);
    if ComparePairs(pairs) == Below {
      var k :| 0 <= k < |pairs| && pairs[k].0 < pairs[k].1
        && forall i :: 0 <= i < k ==> pairs[i].0 == pairs[i].1;
      assert ComponentAt(lhs, k) < ComponentAt(rhs, k);
    }
    if ComponentsBelow(lhs, rhs) {
      var k :| 0 <= k && ComponentAt(lhs, k) < ComponentAt(rhs, k)
        && forall i :: 0 <= i < k ==> ComponentAt(lhs, i) == ComponentAt(rhs, i);
      assert k < |pairs|;
      assert pairs[k].0 < pairs[k].1;
    }
  }

  lemma ComparePairedAbove(lhs: seq<int>, rhs: seq<int>)
    ensures ComparePairs(PairedComponents(lhs, rhs)) == Above <==> ComponentsBelow(rhs, lhs)
  {
    var pairs := PairedComponents(lhs, rhs);
    ComparePairsIff(pairs);
    PairedComponentsEverywhere(lhs, rhs);
    if ComparePairs(pairs) == Above {
      var k :| 0 <= k < |pairs| && pairs[k].0 > pairs[k].1
        && forall i :: 0 <= i < k ==> pairs[i].0 == pairs[i].1;
      assert ComponentAt(rhs, k) < ComponentAt(lhs, k);
    }
    if ComponentsBelow(rhs, lhs) {
      var k :| 0 <= k && ComponentAt(rhs, k) < ComponentAt(lhs, k)
        && forall i :: 0 <= i < k ==> ComponentAt(rhs, i) == ComponentAt(lhs, i);
      assert k < |pairs|;
      assert pairs[k].0 > pairs[k].1;
    }
  }

  /** On a component tie, a release is below a development build, and otherwise the build numbers decide, nil counting as zero. */
  predicate TieBreakLess(lhs: Version, rhs: Version) {
    || (!lhs.isDevelopment && rhs.isDevelopment)
    || (lhs.isDevelopment == rhs.isDevelopment && lhs.build.GetOr(0) < rhs.build.GetOr(0))
  }

  /** Neither side wins the tie break. */
  predicate TieBreakSame(lhs: Version, rhs: Version) {
    lhs.isDevelopment == rhs.isDevelopment && lhs.build.GetOr(0) == rhs.build.GetOr(0)
  }

  /**
   * `<` on parsed versions is the lexicographic order on the zero-padded
   * components, then the tie break; the special case for two versions
   * without components agrees with it, because their builds are present
   * and so neither is a development build.
   */
  lemma LessIff(lhs: Version, rhs: Version)
    requires WellFormed(lhs) && WellFormed(rhs)
    requires Comparable(lhs, rhs)
    ensures Less(lhs, rhs) <==>
      || ComponentsBelow(lhs.marketingComponents, rhs.marketingComponents)
      || (SameComponents(lhs.marketingComponents, rhs.marketingComponents) && TieBreakLess(lhs, rhs))
  {
    var a, b := lhs.marketingComponents, rhs.marketingComponents;
    ComparePairedIff(a, b);
    if |a| == 0 && |b| == 0 {
      assert SameComponents(a, b);
    }
  }

  lemma ComponentsBelowTransitive(a: seq<int>, b: seq<int>, c: seq<int>)
    requires ComponentsBelow(a, b) || SameComponents(a, b)
    requires ComponentsBelow(b, c) || SameComponents(b, c)
    ensures ComponentsBelow(a, b) || ComponentsBelow(b, c) ==> ComponentsBelow(a, c)
    ensures SameComponents(a, b) && SameComponents(b, c) ==> SameComponents(a, c)
  {
    if ComponentsBelow(a, b) && ComponentsBelow(b, c) {
      var k1 :| 0 <= k1 && ComponentAt(a, k1) < ComponentAt(b, k1)
        && forall i :: 0 <= i < k1 ==> ComponentAt(a, i) == ComponentAt(b, i);
      var k2 :| 0 <= k2 && ComponentAt(b, k2) < ComponentAt(c, k2)
        && forall i :: 0 <= i < k2 ==> ComponentAt(b, i) == ComponentAt(c, i);
      var k := if k1 < k2 then k1 else k2;
      assert ComponentAt(a, k) < ComponentAt(c, k);
    } else if ComponentsBelow(a, b) {
      var k :| 0 <= k && ComponentAt(a, k) < ComponentAt(b, k)
        && forall i :: 0 <= i < k ==> ComponentAt(a, i) == ComponentAt(b, i);
      assert ComponentAt(a, k) < ComponentAt(c, k);
    } else if ComponentsBelow(b, c) {
      var k :| 0 <= k && ComponentAt(b, k) < ComponentAt(c, k)
        && forall i :: 0 <= i < k ==> ComponentAt(b, i) == ComponentAt(c, i);
      assert ComponentAt(a, k) < ComponentAt(c, k);
    }
  }

  /** Lists cannot be both equal and ordered once zero-padded, nor ordered both ways. */
  lemma ComponentsBelowExclusive(a: seq<int>, b: seq<int>)
    ensures !(ComponentsBelow(a, b) && SameComponents(a, b))
    ensures !(ComponentsBelow(a, b) && ComponentsBelow(b, a))
  {
    ComparePairedIff(a, b);
  }

  /** Zero-padded component lists are equal or ordered one way or the other. */
  lemma ComponentsTotal(a: seq<int>, b: seq<int>)
    ensures ComponentsBelow(a, b) || SameComponents(a, b) || ComponentsBelow(b, a)
  {
    ComparePairedIff(a, b);
  }

  /** `<` is irreflexive. */
  lemma LessIrreflexive(v: Version)
    requires Comparable(v, v)
    ensures !Less(v, v)
  {
    ComparePairedIff(v.marketingComponents, v.marketingComponents);
  }

  /** `<` is asymmetric. */
  lemma LessAsymmetric(lhs: Version, rhs: Version)
    requires Comparable(lhs, rhs)
    ensures Less(lhs, rhs) ==> !Less(rhs, lhs)
  {
    ComparePairedIff(lhs.marketingComponents, rhs.marketingComponents);
    ComparePairedIff(rhs.marketingComponents, lhs.marketingComponents);
  }

  /** `<` is transitive on parsed versions. */
  lemma LessTransitive(a: Version, b: Version, c: Version)
    requires WellFormed(a) && WellFormed(b) && WellFormed(c)
    requires Comparable(a, b) && Comparable(b, c) && Comparable(a, c)
    requires Less(a, b) && Less(b, c)
    ensures Less(a, c)
  {
    LessIff(a, b);
    LessIff(b, c);
    LessIff(a, c);
    ComponentsBelowTransitive(a.marketingComponents, b.marketingComponents, c.marketingComponents);
  }

  /**
   * Exactly one of `lhs < rhs`, `rhs < lhs` and a tie holds, where a tie
   * means equal zero-padded components, the same development flag and the
   * same build number with nil counting as zero.
   */
  lemma LessTrichotomy(lhs: Version, rhs: Version)
    requires WellFormed(lhs) && WellFormed(rhs)
    requires Comparable(lhs, rhs)
    ensures var tie := SameComponents(lhs.marketingComponents, rhs.marketingComponents) && TieBreakSame(lhs, rhs);
      && (Less(lhs, rhs) || Less(rhs, lhs) || tie)
      && !(Less(lhs, rhs) && tie)
      && !(Less(rhs, lhs) && tie)
  {
    var a, b := lhs.marketingComponents, rhs.marketingComponents;
    LessIff(lhs, rhs);
    LessIff(rhs, lhs);
    LessAsymmetric(lhs, rhs);
    ComponentsTotal(a, b);
    ComponentsBelowExclusive(a, b);
    ComponentsBelowExclusive(b, a);
  }

  /** A development build ranks above every release with the same components. */
  lemma DevelopmentBuildIsNewest(release: Version, development: Version)
    requires WellFormed(release) && WellFormed(development)
    requires !release.isDevelopment && development.isDevelopment
    requires SameComponents(release.marketingComponents, development.marketingComponents)
    requires Comparable(release, development)
    ensures Less(release, development)
  {
    LessIff(release, development);
  }

  // ---------------------------------------------------------------------
  // Pattern match
  // ---------------------------------------------------------------------

  /** The pattern's components equal the candidate's, as far as the pattern goes; the candidate reads zero past its end. */
  function PrefixMatches(pattern: seq<int>, candidate: seq<int>): (matches: bool)
    decreases |pattern|
  {
    if |pattern| == 0 then true
    else pattern[0] == ComponentAt(candidate, 0) && PrefixMatches(pattern[1..], Advance(candidate))
  }

  /**
   * `pattern ~= candidate`, as the engine uses it for blocked versions: the
   * pattern's components agree with the candidate's as far as the pattern
   * goes, and a pattern that names a build number names the candidate's.
   */
  predicate Matches(pattern: Version, candidate: Version) {
    && PrefixMatches(pattern.marketingComponents, candidate.marketingComponents)
    && (pattern.build.None? || pattern.build == candidate.build)
  }

  lemma {:induction false} PrefixMatchesIff(pattern: seq<int>, candidate: seq<int>)
    ensures PrefixMatches(pattern, candidate) <==>
      forall i :: 0 <= i < |pattern| ==> pattern[i] == ComponentAt(candidate, i)
    decreases |pattern|
  {
    if |pattern| > 0 {
      var rest := pattern[1..];
      PrefixMatchesIff(rest, Advance(candidate));
      forall i | 0 <= i < |rest|
        ensures rest[i] == pattern[i + 1]
        ensures ComponentAt(Advance(candidate), i) == ComponentAt(candidate, i + 1)
      {
      }
      if forall i :: 0 <= i < |pattern| ==> pattern[i] == ComponentAt(candidate, i) {
        assert pattern[0] == ComponentAt(candidate, 0);
        forall i | 0 <= i < |rest|
          ensures rest[i] == ComponentAt(Advance(candidate), i)
        {
          assert pattern[i + 1] == ComponentAt(candidate, i + 1);
        }
      }
    }
  }

  /** What `~=` checks, stated without recursion. */
  lemma MatchesIff(pattern: Version, candidate: Version)
    ensures Matches(pattern, candidate) <==>
      && (forall i :: 0 <= i < |pattern.marketingComponents| ==>
            pattern.marketingComponents[i] == ComponentAt(candidate.marketingComponents, i))
      && (pattern.build.Some? ==> pattern.build == candidate.build)
  {
    PrefixMatchesIff(pattern.marketingComponents, candidate.marketingComponents);
  }

  /** A version matches every version equal to it, so a blocked version blocks itself. */
  lemma EqualImpliesMatches(pattern: Version, candidate: Version)
    requires Equal(pattern, candidate)
    ensures Matches(pattern, candidate)
  {
    EqualIff(pattern, candidate);
    MatchesIff(pattern, candidate);
    assert forall i :: 0 <= i < |pattern.marketingComponents| ==>
      ComponentAt(pattern.marketingComponents, i) == pattern.marketingComponents[i];
  }

  /** Dropping trailing components from a matching pattern keeps it matching. */
  lemma MatchesShorterPattern(pattern: Version, candidate: Version, n: nat)
    requires Matches(pattern, candidate)
    requires n <= |pattern.marketingComponents|
    ensures Matches(pattern.(marketingComponents := pattern.marketingComponents[..n]), candidate)
  {
    MatchesIff(pattern, candidate);
    MatchesIff(pattern.(marketingComponents := pattern.marketingComponents[..n]), candidate);
  }
}
