# PocketMine-MP version strings, modelled in Dafny

This project models `pocketmine\utils\VersionString`, the value type a
PocketMine-MP server (here the IPv6 distribution) uses for its own version
and for versions reported by the update checker. An object is built from a
base version string `major.minor.patch[-suffix]`, a development flag and a
build number. It offers a bit-packed numeric rank (`getNumber`), a display
string (`getFullVersion`, `__toString`) and a comparison (`compare`).
Every field is assigned once in the constructor and never changed, so the
object is the datatype `VersionStrings.VersionString`. Its getters
(`getBaseVersion`, `getSuffix`, `getMajor`, `getMinor`, `getPatch`,
`getBuild`, `isDev`) are the destructors `baseVersion`, `suffix`, `major`,
`minor`, `patch`, `build` and `development`.

Files:

- `wrappers.dfy`: `Option`. A constructor call that throws is `None`.
- `bits.dfy`: `Bits.Or` is PHP's `|` on non-negative integers, and `x << k` is `x * 2^k`.
- `decimal.dfy`: ASCII digit strings. `Decimal.Value` is what `(int)` does to a `\d+` match, and `Decimal.FromNat`/`FromInt` is how PHP writes an `int` into a string.
- `version_string.dfy`: the datatype and the operations. It also holds `Shape`, the pattern's language written out directly.
- `version_string_facts.dfy`: the lemmas about those operations.

The constructor's `preg_match('/^(\d+)\.(\d+)\.(\d+)(?:-(.*))?$/', …)` is
replaced by a hand-written recognizer. `SpanDigits` is the greedy `\d+`.
`SplitGroups` finds the three dotted groups, and `SuffixGroup` handles the
optional `-(.*)` group and the `$` anchor. The recognizer is proved equal to
`Shape`, a direct statement of the pattern's language, in both directions.
Two PCRE rules are modelled on purpose. First, `.` does not match a newline.
Second, `$` without the `D` modifier matches at the end or just before one
final newline. So `"1.2.3\n"` and `"1.2.3-rc\n"` are accepted, a suffix never
contains a newline, and `"1.2.3-"` gives the suffix `""`.

Three details of the source the model keeps as written:

- The build number is stored unvalidated as any `int` (VersionString.php:53).
- A failed match throws `InvalidArgumentException`, modelled as `None` (:56-58).
- Ranks collide from minor 16 on, because `minor << 5` then reaches bit 9, the lowest bit of the major field (:67). `MinorOverflowCollides` exhibits this.

## Model

| member | source | states |
|---|---|---|
| `VersionStrings.Shape` | src/pocketmine/utils/VersionString.php:55 | the pattern's language written out directly: three digit runs joined by dots, optionally `-` and a text, optionally one final newline; its length is the sum of those parts and it begins with the major digits and a dot. ParseComplete and ParseSound prove the recognizer accepts exactly these strings |
| `VersionStrings.Parse` | src/pocketmine/utils/VersionString.php:50-64 | on success the object holds the input string verbatim, the caller's dev flag and build number unchanged, and a newline-free suffix |
| `VersionStrings.SpanDigits` | src/pocketmine/utils/VersionString.php:55 | greedy `\d+`: splits s into a digit run and a rest that does not start with a digit |
| `VersionStrings.SplitGroups` | src/pocketmine/utils/VersionString.php:55-62 | a successful split gives three non-empty digit runs joined by dots, followed by a tail that does not extend the third run |
| `VersionStrings.SuffixGroup` | src/pocketmine/utils/VersionString.php:55-63 | it accepts only `""`, `"\n"`, `"-"+t` or `"-"+t+"\n"` with t newline-free, and the captured suffix is that t (or `""`) |
| `VersionStringFacts.SpanDigitsOf` | src/pocketmine/utils/VersionString.php:55 | a digit run followed by a non-digit is split off whole |
| `VersionStringFacts.SplitGroupsFinds` | src/pocketmine/utils/VersionString.php:55 | any string that splits into three dotted digit runs and a non-digit tail is split exactly that way |
| `VersionStringFacts.SuffixGroupOfTail` | src/pocketmine/utils/VersionString.php:55-63 | every tail of the pattern's shape is accepted; the suffix is the hyphen text, or `""` without a hyphen |
| `VersionStringFacts.ParseComplete` | src/pocketmine/utils/VersionString.php:55-63 | every string of the pattern's shape is accepted; major, minor and patch are the decimal values of the three groups, and the suffix is the text after the hyphen or `""` |
| `VersionStringFacts.ParseSound` | src/pocketmine/utils/VersionString.php:55-63 | every accepted string has the pattern's shape, and the fields are read from that shape |
| `VersionStringFacts.ParseFailsIff` | src/pocketmine/utils/VersionString.php:55-58 | construction fails if and only if the input does not have the pattern's shape |
| `VersionStringFacts.ParseFormattedNumbers` | src/pocketmine/utils/VersionString.php:60-62 | writing three naturals as "M.m.p" and parsing that gives the same three naturals back, with suffix `""` |
| `VersionStringFacts.ParseIgnoresLeadingZeros` | src/pocketmine/utils/VersionString.php:60-63 | an extra leading zero on any of the three groups, with or without a final newline, leaves major, minor, patch, the suffix and the rank unchanged |
| `VersionStringFacts.ParseEmptySuffix` | src/pocketmine/utils/VersionString.php:63 | `"1.2.3-"` parses to 1, 2, 3 with suffix `""` |
| `VersionStringFacts.ParseFinalNewline` | src/pocketmine/utils/VersionString.php:55 | `"1.2.3\n"` is accepted, because `$` matches before a final newline |
| `VersionStringFacts.ParseRefusesTwoGroups` | src/pocketmine/utils/VersionString.php:55-58 | `"1.2"` is refused |
| `VersionStringFacts.ParseRefusesLeadingLetter` | src/pocketmine/utils/VersionString.php:55-58 | `"v1.2.3"` is refused |
| `VersionStringFacts.ParseRefusesSuffixWithoutHyphen` | src/pocketmine/utils/VersionString.php:55-58 | `"1.2.3a"` is refused |
| `VersionStringFacts.ParseRefusesNewlineInSuffix` | src/pocketmine/utils/VersionString.php:55-58 | `"1.2.3-a\nb"` is refused, because `.` does not match a newline |
| `VersionStringFacts.ParseRefusesTwoFinalNewlines` | src/pocketmine/utils/VersionString.php:55-58 | `"1.2.3\n\n"` is refused |
| `Decimal.Value` | src/pocketmine/utils/VersionString.php:60-62 | the `(int)` cast of a digit run: its decimal value, which is zero exactly when every digit is `0`. LeadingZeroIgnored and FromNat (whose strings read back as their number) carry its other properties |
| `Decimal.LeadingZeroIgnored` | src/pocketmine/utils/VersionString.php:60-62 | prefixing a digit string with "0" leaves its `(int)` value unchanged |
| `Decimal.FromNat` | src/pocketmine/utils/VersionString.php:79 | writes a natural as a non-empty digit string without a leading zero, and that string reads back as the same number |
| `Decimal.FromInt` | src/pocketmine/utils/VersionString.php:79 | writes an int in decimal, with a leading minus for a negative number; the digits read back as its absolute value |
| `Bits.Or` | src/pocketmine/utils/VersionString.php:67 | PHP's `\|` on non-negative integers, bit by bit from the lowest: the result is zero exactly when both operands are. OrBounds and OrDisjointIsSum give its value |
| `Bits.OrBounds` | src/pocketmine/utils/VersionString.php:67 | `a \| b` is at least each operand and at most their sum |
| `Bits.OrDisjointIsSum` | src/pocketmine/utils/VersionString.php:67 | `(a << k) \| b` equals `a * 2^k + b` when `b < 2^k` |
| `VersionStrings.Number` | src/pocketmine/utils/VersionString.php:66-68 | the rank is at least `major*512`, `minor*32` and `patch`, and at most their sum |
| `VersionStringFacts.NumberPacked` | src/pocketmine/utils/VersionString.php:66-68 | with `minor < 16` and `patch < 32` the rank is exactly `major*512 + minor*32 + patch` |
| `VersionStringFacts.NumberOrdersFields` | src/pocketmine/utils/VersionString.php:66-68 | within those bounds the rank is injective, and it orders versions lexicographically by (major, minor, patch) |
| `VersionStringFacts.MinorOverflowCollides` | src/pocketmine/utils/VersionString.php:67 | with an even major, (M, m+16, p) has the same rank as (M+1, m, p) |
| `VersionStringFacts.PatchOverflowCollides` | src/pocketmine/utils/VersionString.php:67 | with an even minor m < 15, (M, m, p+32) has the same rank as (M, m+1, p) |
| `VersionStringFacts.NumberExamples` | src/pocketmine/utils/VersionString.php:66-68 | 1.0.0 ranks 512, 0.5.3 ranks 163, 2.1.4 ranks 1060 |
| `VersionStrings.BuildTag` | src/pocketmine/utils/VersionString.php:79 | the build tag is "." followed by the number in decimal, so it ends in a digit |
| `VersionStrings.FullVersion` | src/pocketmine/utils/VersionString.php:74-84 | it starts with `baseVersion + "-ipv6"`; `"+dev"` follows right after iff the build is a development build; it ends with the build tag iff dev, asked for, and build > 0; and its length is exactly those parts |
| `VersionStringFacts.FullVersionBuildReadsBack` | src/pocketmine/utils/VersionString.php:78-79 | in the long display string of a dev build with a positive build number, the text after `base-ipv6+dev.` reads back as the build number |
| `VersionStringFacts.FullVersionExamples` | src/pocketmine/utils/VersionString.php:74-84 | `"1.2.3-ipv6"` for a release, `"1.2.3-ipv6+dev.7"` for dev build 7 with the build shown, and `"1.2.3-ipv6+dev"` for dev build 0 or when converted to a string |
| `VersionStrings.ToString` | src/pocketmine/utils/VersionString.php:110-112 | `__toString` is `getFullVersion(false)`: base version, `-ipv6`, and `+dev` for a dev build, with no build number |
| `VersionStringFacts.ToStringIgnoresBuild` | src/pocketmine/utils/VersionString.php:110-112 | the string conversion does not depend on the build number |
| `VersionStrings.Compare` | src/pocketmine/utils/VersionString.php:114-133 | with diff it returns target rank minus own rank; otherwise it returns -1, 0 or 1: the sign of the rank difference when ranks differ, and at equal rank -1 for a dev target against a release `this`, else the sign of the build difference |
| `VersionStringFacts.CompareRawAntisymmetric` | src/pocketmine/utils/VersionString.php:117-119 | `a.compare(b, true) == -b.compare(a, true)` |
| `VersionStringFacts.CompareFollowsRank` | src/pocketmine/utils/VersionString.php:115-123 | when ranks differ, the normalised result is the sign of the raw difference, whatever the flags and builds, and it is antisymmetric |
| `VersionStringFacts.CompareSelf` | src/pocketmine/utils/VersionString.php:114-133 | every version compares equal to itself in both modes |
| `VersionStringFacts.CompareDevAgainstRelease` | src/pocketmine/utils/VersionString.php:124-132 | at equal rank, release.compare(dev) is -1, while dev.compare(release) is only the sign of release.build - dev.build |
| `VersionStringFacts.CompareAntisymmetricIff` | src/pocketmine/utils/VersionString.php:120-132 | swapping the arguments negates the result iff ranks differ, the dev flags agree, or the release has the larger build number |
| `VersionStringFacts.CompareMutuallyOlder` | src/pocketmine/utils/VersionString.php:124-129 | release 1.0.0 build 0 and dev 1.0.0 build 5 each compare the other as older (-1) |
| `VersionStringFacts.CompareOrdersFields` | src/pocketmine/utils/VersionString.php:120-123 | within the non-overlap bounds, for different (major, minor, patch), compare is 1 iff `this` precedes the target field by field, and -1 iff the target precedes `this` |

## Left out

- VersionStrings.Parse, VersionStrings.Number, VersionStrings.Compare: PHP's 64-bit integers are not modelled; here all numbers are unbounded. In PHP, `(int)` saturates on digit runs above `PHP_INT_MAX`. `<<` drops bits shifted past bit 63, so `getNumber` can be negative. An overflowing raw difference in `compare` becomes a float, which the `int` return type rejects with a TypeError under `strict_types=1`.
- Bytes versus characters: PHP strings are bytes and the pattern has no `u` modifier. The model uses Dafny characters, with `\d` being the ten ASCII digits.
- The exception's class and its message text: a failed construction is `None`.
- A `preg_match` failure from PCRE's backtracking or recursion limits cannot happen on this pattern, and is not modelled.
- Default arguments: `isDevBuild = false`, `buildNumber = 0`, `getFullVersion($build = false)` and `compare($target, $diff = false)` are explicit parameters (`Parse`'s flag and number, `FullVersion`'s `withBuild`, `Compare`'s `diff`); `ToString` is the `false` case of `FullVersion`.
