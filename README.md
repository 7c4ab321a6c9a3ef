# version-check-swift, modelled in Dafny

VersionCheck is a Swift library. It asks a server which app versions are still supported and tells the app what to show: nothing, a suggested update, a forced update, a maintenance notice, or, for development builds, a diagnostic. This project models its core and proves properties about that model:

- **`Version`** (`version.dfy`, module `Versions`). A marketing version such as `1.2.3-beta` with an optional build number. The model covers its three public initializers and the private initializer they share. It also covers `description`, equality `==`, the ordering `<` (both as a specification `Less` and as the loop `LessThan`), and the pattern match `~=` that the engine uses for blocked versions. The Swift standard-library pieces the parser relies on are in `strings.dfy`: `Int(_: String)`, `"\(n)"`, `split(separator:)` and `joined(separator:)`.
- **`Zip2WithNilPadding`** (`zip_nil_padding.dfy`). The specification is the function `PaddedZip`. The iterator returned by `makeIterator()` is the class `PaddedZipIterator`, with the two captured iterators as fields. `Collect` runs it to the end, as `map` does.
- **`subscript(checked:)`** (`bounds_checked.dfy`).
- **The server's data and the engine's outputs** (`version_data.dfy`): `Status`, `DisplayState`, `PlatformVersionData` and `VersionData`.
- **The engine `VersionCheck`** (`version_check.dfy`), a class with the source's mutable fields. Every `didSet` of `status` and `displayState` calls a handler; the model appends each of these calls to the field `notifications`, in order. The class invariant says that the two properties hold the values their observers last reported. `Verdict` states the rule order of `validateVersion`, and lemmas about `Verdict` give each outcome's exact condition.
- **The repository's tests** (`version_examples.dfy`, `comparison_examples.dfy`): the same test vectors, stated as lemmas over concrete strings.
- **A worked policy** (`engine_examples.dfy`): minimum 2.1, blocked 2.2.0, 2.2.1 and "@301", latest test 2.4.2@400, with the versions written out as values. 2.0.1@100 is forced to update by the minimum and 2.2.1@400 by the blocked list. 2.1.1@200 passes both and is decided by the latest-test rule (`VersionCheck.swift:140`): it is below 2.4.2, so an update is suggested.

Behaviour the model reproduces from the code:

- Swift's `Int(_:)` accepts a leading `+` or `-`, so `"1@-5"` has build number -5.
- A build string that is not an integer leaves the build number nil rather than failing.
- The emptiness check at `Version.swift:59` reads the build *string* parameter, not the parsed number. So `"@"`, `"@foo"` and `"@0"` parse, with no components.
- The marketing regular expression splits at the first maximal run of digits and dots. Text before that run is dropped (`"v1.2"` parses as `"1.2"`). Because `split` omits empty pieces, `"1..2"` parses as `"1.2"` and `"1@@2"` as `"1@2"`.
- `==` ignores the development flag but `<` does not: `"1.2" == "1.2@0"` and `"1.2" < "1.2@0"` both hold.

`~=` is not defined in the Swift sources. Swift's default `~=` for an `Equatable` type is `==`, which the pattern tests contradict: they expect `"1.2" ~= "1.2.1"`. So `Matches` gives the meaning the tests require. The pattern's components must equal the candidate's as far as the pattern goes, with the candidate read as zero past its end. A pattern that has a build number must have the candidate's build number. The tests never use a pattern longer than the candidate; comparing against zeros there is an assumption of this model. A pattern with no components and no build number matches every candidate. `"@"`, `"@foo"` and `"@0"` all parse that way, so one such entry in the blocked list disallows every app version (`Engine.IsBlocked`).

`VersionData.swift` declares the third field of `PlatformVersionData` as `currentVersion`, but `VersionCheck.swift:139` reads `latestTestVersion`. The model follows the engine and names the field `latestTestVersion`.

When both component lists are empty, `<` force-unwraps both build numbers (`Version.swift:110`). The comment there says these are never nil, but `"@foo"` parses with no components and no build number. The model therefore gives `Less` and `LessThan` the precondition `Comparable`, which says that the unwraps succeed. The engine requires `ComparisonsDefined`, which says that every comparison `validateVersion` reaches on its way to a verdict is `Comparable`.

## Model

| member | source | states |
|---|---|---|
| BoundsChecked.Checked | Sources/VersionCheck/Utility/Collection+BoundsChecked.swift:9-11 | nil exactly when the index is outside the collection's indices, else the element at the index; defined for every integer |
| ZipNilPadding.PaddedZipAt | Sources/VersionCheck/Utility/ZipNilPadding.swift:22-31 | there are max(\|first\|, \|second\|) pairs, and pair i holds element i of each side, or nil past that side's end |
| ZipNilPadding.PaddedZip | Sources/VersionCheck/Utility/ZipNilPadding.swift:22-31 | the sequence `next()` yields, one pair per step until both sides are exhausted; `PaddedZipAt`, `PaddedZipLength`, `PaddedZipNeverBothNil` and `PaddedZipProjections` state what it holds |
| ZipNilPadding.PaddedZipLength | Sources/VersionCheck/Utility/ZipNilPadding.swift:22-31 | the number of pairs is the length of the longer side |
| ZipNilPadding.PaddedZipNeverBothNil | Sources/VersionCheck/Utility/ZipNilPadding.swift:26-30 | no yielded pair is nil on both sides |
| ZipNilPadding.PaddedZipProjections | Sources/VersionCheck/Utility/ZipNilPadding.swift:23-29 | dropping the nils from the first (second) components gives `first` (`second`) back |
| ZipNilPadding.PaddedZipIterator.constructor | Sources/VersionCheck/Utility/ZipNilPadding.swift:18-20 | the iterator starts with the whole of both sides still to yield |
| ZipNilPadding.PaddedZipIterator.Next | Sources/VersionCheck/Utility/ZipNilPadding.swift:22-31 | `next()` yields the next pair of the zipped sequence, or nil once both sides are exhausted, and advances both captured iterators |
| ZipNilPadding.Collect | Sources/VersionCheck/Utility/ZipNilPadding.swift:18-32 | iterating to the end yields exactly the zipped sequence, in order |
| Strings.ParseInt | Sources/VersionCheck/Version.swift:48 | `Int(_:)` succeeds exactly on an optionally signed, non-empty run of decimal digits; an unsigned or '+' run gives its decimal value, a '-' run the negated value |
| Strings.ParseIntOfIntToString | Sources/VersionCheck/Version.swift:16-17 | reading back the interpolation `"\(i)"` with `Int(_:)` gives i |
| Strings.IntToString | Sources/VersionCheck/Version.swift:16-17 | the interpolation `"\(i)"`: a '-' for a negative number, then the decimal digits; `ParseIntOfIntToString` states that `Int(_:)` reads it back |
| Strings.Split | Sources/VersionCheck/Version.swift:46 | `split(separator:)` with empty pieces omitted: no piece is empty and none contains the separator; `SplitJoin`, `SplitDoubledSeparator` and `SplitTrailingSeparator` state how it splits |
| Strings.SplitJoin | Sources/VersionCheck/Version.swift:16 | splitting a dot-join of non-empty, separator-free pieces gives the pieces back |
| Strings.SplitDoubledSeparator | Sources/VersionCheck/Version.swift:68 | `split` ignores a separator directly after another |
| Strings.SplitTrailingSeparator | Sources/VersionCheck/Version.swift:68 | `split` ignores a separator at the end |
| Versions.MarketingMatch | Sources/VersionCheck/Version.swift:7 | the first match of `([0-9\.]+)(.*)` is absent exactly when there is no digit or dot; otherwise it starts at the first digit or dot, group 1 is a maximal non-empty run of digits and dots, and group 2 is the rest |
| Versions.MarketingMatchOf | Sources/VersionCheck/Version.swift:36-38 | the capture groups are determined by splitting the text into a digit-free prefix, the numeric run, and a rest that does not continue the run |
| Versions.NumericMarketing | Sources/VersionCheck/Version.swift:38 | the numeric part is all digits and dots, and is empty exactly when the marketing text has no digit or dot |
| Versions.ParseComponents | Sources/VersionCheck/Version.swift:46-53 | the throwing `map` succeeds exactly when every piece parses, and then yields each piece's value in order |
| Versions.ParseFields | Sources/VersionCheck/Version.swift:23-62 | every version the private initializer produces is well formed: a development build has no build number, and no component is negative |
| Versions.ParseFieldsFails | Sources/VersionCheck/Version.swift:41-61 | parsing fails exactly when the numeric part starts or ends with a dot, or when there are no components and no build string |
| Versions.NumericPartParses | Sources/VersionCheck/Version.swift:46-53 | the components of a numeric part always parse, and there are none only when the part is empty |
| Versions.ParseFieldsBuild | Sources/VersionCheck/Version.swift:26-32 | build "0" gives a development build with a nil build number; any other build string gives `Int(build)` and is not a development build |
| Versions.ParseFieldsBuildIndependent | Sources/VersionCheck/Version.swift:23-62 | the marketing fields do not depend on the build string, and adding a build string never makes parsing fail |
| Versions.LeadingTextIsDropped | Sources/VersionCheck/Version.swift:34-38 | text before the first digit or dot does not change the parse |
| Versions.AdditionalTextIsKept | Sources/VersionCheck/Version.swift:37 | the text after the numeric part becomes `additionalText` and changes no other field |
| Versions.DoubledDotIsDropped | Sources/VersionCheck/Version.swift:46 | a doubled dot inside the numeric part parses as a single one |
| Versions.DoubledAtIsDropped | Sources/VersionCheck/Version.swift:68-80 | `"m@@b"` parses as `"m@b"` does |
| Versions.TrailingAtIsDropped | Sources/VersionCheck/Version.swift:68-80 | `"m@"` parses as `"m"` does, with no build |
| Versions.FromStringAgreesWithFromMarketing | Sources/VersionCheck/Version.swift:64-88 | `init(string: "m@b")` equals `init(marketing: m, build: b)` when m and b are non-empty and contain no '@' |
| Versions.FromStringAgreesWithMarketingOnly | Sources/VersionCheck/Version.swift:74-88 | `init(string: m)` equals `init(marketing: m)` when m is non-empty and contains no '@' |
| Versions.FromStringAgreesWithFromBuild | Sources/VersionCheck/Version.swift:65-66 | `init(string: "@b")` equals `init(build: b)` |
| Versions.FromString | Sources/VersionCheck/Version.swift:64-84 | `init(string:)`: a leading "@" gives `init(build:)`, otherwise the text is split at '@' into a marketing part and at most one build part; every version it produces is well formed. `ValidStrings`, `InvalidStrings`, `FromStringAgreesWithFromMarketing` and `DescriptionRoundTrip` state what it accepts |
| Versions.FromMarketing | Sources/VersionCheck/Version.swift:86-88 | `init(marketing:build:)`: every version it produces is well formed, and is a development build exactly when the build string is "0" |
| Versions.FromBuild | Sources/VersionCheck/Version.swift:90-92 | `init(build:)` never fails: it gives no components and no additional text, and a development build exactly when the build string is "0" |
| Versions.Description | Sources/VersionCheck/Version.swift:15-19 | `description`; `DescriptionParts` states its layout and `DescriptionRoundTrip` that `init(string:)` reads it back |
| Versions.DescriptionParts | Sources/VersionCheck/Version.swift:15-19 | `description` is the joined components and the additional text (empty when there is none), followed by "@build" exactly when there is a build number |
| Versions.DescriptionRoundTrip | Sources/VersionCheck/Version.swift:15-19 | `init(string:)` parses the description of every canonical version back to that exact version |
| Versions.PairedComponentsAt | Sources/VersionCheck/Version.swift:96 | the zero-filled pairs are as many as the longer component list, and pair i holds component i of each side, zero past its end |
| Versions.PairedComponentsSides | Sources/VersionCheck/Version.swift:96 | zero filling gives two lists of equal length, the shorter extended only by trailing zeros |
| Versions.AllPairsEqualIff | Sources/VersionCheck/Version.swift:99-101 | the `reduce` is true exactly when every pair agrees |
| Versions.Equal | Sources/VersionCheck/Version.swift:94-105 | `==`; `EqualIff` states when it holds and `EqualIsEquivalence` that it is an equivalence |
| Versions.EqualIff | Sources/VersionCheck/Version.swift:94-105 | `==` holds exactly when the zero-padded components agree at every index and the build numbers are equal |
| Versions.EqualIsEquivalence | Sources/VersionCheck/Version.swift:94-105 | `==` is reflexive, symmetric and transitive |
| Versions.EqualIgnoresTextAndDevelopment | Sources/VersionCheck/Version.swift:104 | changing the additional text or the development flag never changes `==` |
| Versions.LessThan | Sources/VersionCheck/Version.swift:107-143 | the operator's loop with early returns computes `Less` |
| Versions.ComparePairsIff | Sources/VersionCheck/Version.swift:117-125 | the loop's verdict is decided by the first pair that differs, and is a tie exactly when no pair differs |
| Versions.Less | Sources/VersionCheck/Version.swift:107-143 | `<`, defined when `Comparable` holds; `LessThan` computes it, and `LessIff`, `LessTransitive` and `LessTrichotomy` state the order |
| Versions.ComparePairedIff | Sources/VersionCheck/Version.swift:114-125 | comparing the zero-filled pairs is the lexicographic order on the zero-padded component lists |
| Versions.LessIff | Sources/VersionCheck/Version.swift:107-143 | on parsed versions, `<` holds exactly when the components are lexicographically below, or tie and the tie break (release below development, then build numbers with nil as 0) says so |
| Versions.LessIrreflexive | Sources/VersionCheck/Version.swift:107-143 | no version is `<` itself |
| Versions.LessAsymmetric | Sources/VersionCheck/Version.swift:107-143 | `a < b` excludes `b < a` |
| Versions.LessTransitive | Sources/VersionCheck/Version.swift:107-143 | `<` is transitive on parsed versions |
| Versions.LessTrichotomy | Sources/VersionCheck/Version.swift:107-143 | exactly one of `a < b`, `b < a` and a tie holds |
| Versions.DevelopmentBuildIsNewest | Sources/VersionCheck/Version.swift:132-138 | a development build is above every release with the same zero-padded components |
| Versions.MatchesIff | Tests/VersionCheckTests/ComparisonTests.swift:48-54 | `~=` holds exactly when every pattern component equals the candidate's component there (zero past its end), and a pattern build, if present, equals the candidate's |
| Versions.EqualImpliesMatches | Sources/VersionCheck/VersionCheck.swift:129-137 | a blocked entry `==` to the app version matches it |
| Versions.Matches | Tests/VersionCheckTests/ComparisonTests.swift:48-54 | `~=`; `MatchesIff` states when it holds |
| Versions.MatchesShorterPattern | Tests/VersionCheckTests/ComparisonTests.swift:49-52 | dropping trailing components from a matching pattern keeps it matching |
| Engine.LastStatusAppend | Sources/VersionCheck/VersionCheck.swift:10-14 | the status after two runs of handler calls is the second run read from where the first left off |
| Engine.LastDisplayAppend | Sources/VersionCheck/VersionCheck.swift:16-20 | the same for the display state |
| Engine.ResolveAppVersion | Sources/VersionCheck/VersionCheck.swift:49-57 | the app version the initializer resolves; `ResolvedAppVersionIsDevelopment` states when it is present |
| Engine.ResolvedAppVersionIsDevelopment | Sources/VersionCheck/VersionCheck.swift:49-57 | the app version is resolved exactly when both strings are present and parse; it is then well formed and a development build exactly when the build is "0" |
| Engine.FindBlocked | Sources/VersionCheck/VersionCheck.swift:129-137 | the loop over the blocked versions finds a match exactly when some entry `~=` the app version |
| Engine.Verdict | Sources/VersionCheck/VersionCheck.swift:113-154 | the status and display state `validateVersion` settles on; the four `Verdict…` lemmas below give each outcome's exact condition |
| Engine.VerdictDisallowedIffForceUpdate | Sources/VersionCheck/VersionCheck.swift:113-154 | the verdict is disallowed exactly when it forces an update; it is never a development failure and never unknown or a fetch failure |
| Engine.VerdictDisallowedIff | Sources/VersionCheck/VersionCheck.swift:113-137 | disallowed exactly when the server forces failure, the app is below the minimum, or a blocked pattern matches |
| Engine.VerdictSuggestsUpdateIff | Sources/VersionCheck/VersionCheck.swift:139-145 | an update is suggested exactly when the app is not disallowed and is below the latest test version |
| Engine.VerdictMaintenanceIff | Sources/VersionCheck/VersionCheck.swift:147-151 | maintenance is shown exactly when the server reports it and neither an earlier rule disallows nor an update is suggested |
| Engine.BlockedVersionIsDisallowed | Sources/VersionCheck/VersionCheck.swift:129-137 | an app version `==` to a blocked entry is disallowed and forced to update |
| Engine.DevelopmentBuildMeetsMinimum | Sources/VersionCheck/VersionCheck.swift:119-127 | a development build with the minimum's zero-padded components is not below the minimum, whether or not the minimum is itself a development build |
| Engine.ValidationNotifications | Sources/VersionCheck/VersionCheck.swift:104-155 | the handler calls `validateVersion` makes, in order; `ValidationEndsWithVerdict` and `NoWarningsOutsideDevelopment` state what they report |
| EngineExamples.BelowMinimumIsForced | Sources/VersionCheck/VersionCheck.swift:119-124 | against the example policy, 2.0.1@100 is below the minimum 2.1 and so is disallowed and forced to update |
| EngineExamples.BelowLatestTestIsSuggested | Sources/VersionCheck/VersionCheck.swift:119-145 | against the example policy, 2.1.1@200 meets the minimum and matches no blocked entry, but is below the latest test version 2.4.2@400, so an update is suggested |
| EngineExamples.BlockedIsForced | Sources/VersionCheck/VersionCheck.swift:129-137 | against the example policy, 2.2.1@400 meets the minimum but the blocked entry 2.2.1 matches it, so it is disallowed and forced to update |
| EngineExamples.PolicyVerdicts | Sources/VersionCheck/VersionCheck.swift:113-154 | the three verdicts of the example policy: forced update, suggested update, forced update |
| Engine.ValidationEndsWithVerdict | Sources/VersionCheck/VersionCheck.swift:104-155 | after validation, the last reported status and display state are the verdict, or a fetch failure (and the warning in development mode) when there is no app version |
| Engine.NoWarningsOutsideDevelopment | Sources/VersionCheck/VersionCheck.swift:98-102 | outside development mode, validation reports only the status and then the display state |
| Engine.VersionCheck.constructor | Sources/VersionCheck/VersionCheck.swift:33-60 | status and display start as unknown and clear without handler calls; the app version and development mode are resolved; then an invalid URL reports a fetch failure and its warning |
| Engine.VersionCheck.SetStatus | Sources/VersionCheck/VersionCheck.swift:10-14 | every assignment to `status` calls the status handler once with the new value |
| Engine.VersionCheck.SetDisplayState | Sources/VersionCheck/VersionCheck.swift:16-20 | every assignment to `displayState` calls the display handler once with the new value |
| Engine.VersionCheck.Warn | Sources/VersionCheck/VersionCheck.swift:98-102 | in development mode the display becomes the development failure with the message; otherwise nothing changes |
| Engine.VersionCheck.PerformVersionCheck | Sources/VersionCheck/VersionCheck.swift:62-67 | an invalid URL reports a fetch failure and warns; a valid one starts the fetch and changes nothing yet |
| Engine.VersionCheck.CompleteFetch | Sources/VersionCheck/VersionCheck.swift:69-95 | the completion of a fetch started for a valid URL: no data and undecodable data each report a fetch failure and their warning without touching the last data; decoded data is validated |
| Engine.VersionCheck.ValidateVersion | Sources/VersionCheck/VersionCheck.swift:104-155 | records the data, reports exactly the handler calls of `ValidationNotifications`, and ends with the verdict as status and display state |
| VersionExamples.BasicParse | Tests/VersionCheckTests/ParsingTests.swift:9-19 | "1.2.3-test@250" parses to components 1, 2, 3, text "-test", build 250, not development, and its description is the string itself |
| VersionExamples.ValidStrings | Tests/VersionCheckTests/ParsingTests.swift:21-35 | each valid test string parses, to the stated version |
| VersionExamples.InvalidStrings | Tests/VersionCheckTests/ParsingTests.swift:37-50 | "1.0@4@5", "foo", "" and "." are rejected |
| VersionExamples.InvalidNumericParts | Tests/VersionCheckTests/ParsingTests.swift:37-50 | "1.foo.0" and "1.x" are rejected, since their numeric part ends in a dot |
| VersionExamples.NonNumericBuildIsIgnored | Sources/VersionCheck/Version.swift:30 | "1.0@foo" and "@foo" parse, with a nil build number |
| VersionExamples.BuildStringOnly | Sources/VersionCheck/Version.swift:59-61 | "@" parses with no components and no build; "@0" is a development build |
| VersionExamples.SignedBuild | Sources/VersionCheck/Version.swift:30 | "1@-5" has build number -5 |
| ComparisonExamples.BasicEquality | Tests/VersionCheckTests/ComparisonTests.swift:22-25 | "1.2.3-test@250" parses, and is `==` to a second parse of itself |
| ComparisonExamples.BasicInequality | Tests/VersionCheckTests/ComparisonTests.swift:26-31 | "1.2.3-test@250" is not `==` to "1.2.4-test@250", to marketing "1.2.3" with no build or build 300, or to "1.1.4" build 250 |
| ComparisonExamples.AlternateConstructions | Tests/VersionCheckTests/ComparisonTests.swift:35-40 | the string, marketing and build initializers give `==` versions on the test inputs |
| ComparisonExamples.MissingComponents | Tests/VersionCheckTests/ComparisonTests.swift:42-46 | "1.2" is `==` to "1.2.0"; "1.2" and "1.2.1" both parse and are not `==` |
| ComparisonExamples.PatternMatch | Tests/VersionCheckTests/ComparisonTests.swift:48-54 | the five pattern tests hold as expected; for the two negative ones both strings parse and the pattern does not match |
| ComparisonExamples.Ordering | Tests/VersionCheckTests/ComparisonTests.swift:56-68 | the eleven ordering tests hold as expected, each pair comparable |
| ComparisonExamples.DevelopmentBuild | Tests/VersionCheckTests/ComparisonTests.swift:70-76 | the four development-build ordering tests hold as expected |
| ComparisonExamples.EqualityAndOrderingDisagree | Sources/VersionCheck/Version.swift:94-143 | "1.2" is `==` to "1.2@0" and also `<` it |

## Left out

- Network and bundle I/O (`URLFetcher.swift`, `AppVersionFetcher.swift`) are inputs. The constructor takes the two optional version strings, and `CompleteFetch` takes what the fetch and the decoder produced.
- `URL(string:)`, JSON decoding and the injected `jsonFormatConverter` are foreign code; their outcomes are inputs (`urlIsValid`, `Response`).
- The `DispatchQueue` hops, and overlapping checks whose completions interleave, are concurrency. Each completion is one sequential `CompleteFetch` call.
- The handlers themselves: what they receive is recorded in `notifications`, and what they do is not modelled.
- `DefaultUpgradeDisplay.swift` (UIKit alert presentation) is not part of this model.
- `NSRegularExpression+CaptureGroups.swift` is modelled only through the one pattern used, as the string function `MarketingMatch`. Strings are taken to hold no line break, where `.*` would stop.
- Strings are sequences of characters; Swift's grapheme clusters and Unicode digit handling are not modelled.
- Strings.ParseInt: integers are unbounded, so a digit string outside the 64-bit range parses instead of giving nil.
- Versions.Less: trapping on a nil build (`Version.swift:110`) is a precondition (`Comparable`), not a modelled crash. The engine's methods likewise require `ComparisonsDefined`.
- Versions.Matches: a pattern longer than the candidate is compared against zeros, which is an assumption; `~=` has no source definition.
- ComparisonExamples.AlternateConstructions: it does not state the test's "1.2.3-different-text" case on the literal string. The general lemmas `Versions.AdditionalTextIsKept` and `Versions.EqualIgnoresTextAndDevelopment` cover it for every numeric part and text.
