/**
 * PocketMine-MP version strings: a base version "major.minor.patch[-suffix]"
 * parsed once at construction, plus a caller-supplied development flag and
 * build number; a bit-packed numeric rank, a display string and a comparison.
 * Every field is fixed at construction, so the object is a datatype value.
 */
module VersionStrings {
  import opened Wrappers
  import Decimal
  import Bits

  /**
   * The fields of a constructed object. The getters getBaseVersion, getSuffix,
   * getMajor, getMinor, getPatch, getBuild and isDev are the destructors
   * baseVersion, suffix, major, minor, patch, build and development.
   */
  datatype VersionString = VersionString(
    baseVersion: string,
    suffix: string,
    major: nat,
    minor: nat,
    patch: nat,
    build: int,
    development: bool)

  predicate NoNewline(t: string) {
    forall i :: 0 <= i < |t| ==> t[i] != '\n'
  }

  // ---------------------------------------------------------------------
  // The language of /^(\d+)\.(\d+)\.(\d+)(?:-(.*))?$/, stated directly.
  // `.` does not match a newline, and `$` (without the D modifier) matches
  // at the very end or just before one final newline.
  // ---------------------------------------------------------------------

  /** Three digit runs, optionally "-" and a text, optionally one final newline. */
  function Shape(d1: string, d2: string, d3: string, hyphen: bool, text: string, newline: bool): (r: string)
    ensures |r| == |d1| + |d2| + |d3| + 2 + (if hyphen then 1 + |text| else 0) + (if newline then 1 else 0)
    ensures r[..|d1|] == d1 && |r| > |d1| && r[|d1|] == '.'
  {
    d1 + ("." + (d2 + ("." + (d3 + ((if hyphen then "-" + text else "") + (if newline then "\n" else ""))))))
  }

  /** What each part of a Shape must be for the pattern to match it. */
  predicate WellFormedParts(d1: string, d2: string, d3: string, text: string) {
    && |d1| > 0 && Decimal.IsDigits(d1)
    && |d2| > 0 && Decimal.IsDigits(d2)
    && |d3| > 0 && Decimal.IsDigits(d3)
    && NoNewline(text)
  }

  // ---------------------------------------------------------------------
  // The recognizer.
  // ---------------------------------------------------------------------

  /** `\d+` is greedy: the longest digit run at the front of s, and what follows it. */
  function SpanDigits(s: string): (r: (string, string))
    ensures r.0 + r.1 == s
    ensures Decimal.IsDigits(r.0)
    ensures r.1 == [] || !Decimal.IsDigit(r.1[0])
  {
    if s != [] && Decimal.IsDigit(s[0]) then
      var (run, rest) := SpanDigits(s[1..]);
      assert [s[0]] + run + rest == s;
      ([s[0]] + run, rest)
    else ([], s)
  }

  /**
   * What `(?:-(.*))?$` does with the text left after the patch digits:
   * the captured suffix ("" when the group is absent or empty), or None
   * when the pattern cannot finish.
   */
  function SuffixGroup(t: string): (r: Option<string>)
    ensures r.Some? ==> NoNewline(r.value)
    ensures r.Some? ==>
      || (r.value == "" && (t == "" || t == "\n"))
      || t == "-" + r.value
      || t == "-" + r.value + "\n"
  {
    var body := if |t| > 0 && t[|t| - 1] == '\n' then t[..|t| - 1] else t;
    if body == "" then Some("")
    else if body[0] == '-' && NoNewline(body[1..]) then
      assert body == "-" + body[1..];
      Some(body[1..])
    else None
  }

  /** The three digit runs of `(\d+)\.(\d+)\.(\d+)` and whatever follows them. */
  datatype Groups = Groups(d1: string, d2: string, d3: string, tail: string)

  /** s is three non-empty digit runs joined by dots, then a tail that does not extend the last run. */
  predicate SplitsAs(s: string, g: Groups) {
    && |g.d1| > 0 && Decimal.IsDigits(g.d1)
    && |g.d2| > 0 && Decimal.IsDigits(g.d2)
    && |g.d3| > 0 && Decimal.IsDigits(g.d3)
    && (g.tail == "" || !Decimal.IsDigit(g.tail[0]))
    && s == g.d1 + ("." + (g.d2 + ("." + (g.d3 + g.tail))))
  }

  /** The greedy match of the three digit groups at the start of s, if there is one. */
  function SplitGroups(s: string): (r: Option<Groups>)
    ensures r.Some? ==> SplitsAs(s, r.value)
  {
    var (d1, r1) := SpanDigits(s);
    if d1 == [] || r1 == [] || r1[0] != '.' then None
    else
      var (d2, r2) := SpanDigits(r1[1..]);
      if d2 == [] || r2 == [] || r2[0] != '.' then None
      else
        var (d3, tail) := SpanDigits(r2[1..]);
        if d3 == [] then None
        else
          assert r2 == "." + (d3 + tail);
          assert r1 == "." + (d2 + r2);
          Some(Groups(d1, d2, d3, tail))
  }

  /**
   * The constructor: None where it throws InvalidArgumentException, the
   * new object otherwise. The input, the flag and the build number are
   * stored exactly as given.
   */
  function Parse(s: string, isDevBuild: bool, buildNumber: int): (r: Option<VersionString>)
    ensures r.Some? ==> r.value.baseVersion == s
    ensures r.Some? ==> r.value.development == isDevBuild && r.value.build == buildNumber
    ensures r.Some? ==> NoNewline(r.value.suffix)
  {
    match SplitGroups(s)
    case None => None
    case Some(g) =>
      match SuffixGroup(g.tail)
      case None => None
      case Some(sfx) =>
        Some(VersionString(s, sfx, Decimal.Value(g.d1), Decimal.Value(g.d2), Decimal.Value(g.d3),
                           buildNumber, isDevBuild))
  }

  // ---------------------------------------------------------------------
  // Rank, display and comparison.
  // ---------------------------------------------------------------------

  /** getNumber: (major << 9) | (minor << 5) | patch, a left shift by k being a product with 2 to the k. */
  function Number(v: VersionString): (r: nat)
    ensures v.major * 512 <= r && v.minor * 32 <= r && v.patch <= r
    ensures r <= v.major * 512 + v.minor * 32 + v.patch
  {
    var high := Bits.Or(v.major * 512, v.minor * 32);
    Bits.OrBounds(v.major * 512, v.minor * 32);
    Bits.OrBounds(high, v.patch);
    Bits.Or(high, v.patch)
  }

  /** The distribution tag every display string carries after the base version. */
  const DistributionTag: string := "-ipv6"

  /** The build tag: "." and the build number in decimal. */
  function BuildTag(build: int): (r: string)
    ensures |r| >= 2 && r[0] == '.' && Decimal.IsDigit(r[|r| - 1])
  {
    "." + Decimal.FromInt(build)
  }

  /**
   * getFullVersion: the base version, the tag, then "+dev" for a development
   * build, then the build tag when it is asked for and the number is positive.
   */
  function FullVersion(v: VersionString, withBuild: bool): (r: string)
    ensures |r| >= |v.baseVersion| + |DistributionTag|
    ensures r[..|v.baseVersion| + |DistributionTag|] == v.baseVersion + DistributionTag
    ensures v.development <==>
      |r| >= |v.baseVersion| + 9 && r[|v.baseVersion| + 5..|v.baseVersion| + 9] == "+dev"
    ensures (v.development && withBuild && v.build > 0) <==>
      |r| >= |BuildTag(v.build)| && r[|r| - |BuildTag(v.build)|..] == BuildTag(v.build)
    ensures |r| == |v.baseVersion| + 5 + (if v.development then 4 else 0)
      + (if v.development && withBuild && v.build > 0 then |BuildTag(v.build)| else 0)
  {
    var prefix := v.baseVersion + DistributionTag;
    if v.development then
      if withBuild && v.build > 0 then
        var r := prefix + "+dev" + BuildTag(v.build);
        assert r[|r| - |BuildTag(v.build)|..] == BuildTag(v.build);
        assert r[|v.baseVersion| + 5..|v.baseVersion| + 9] == "+dev";
        r
      else
        var r := prefix + "+dev";
        assert r[|v.baseVersion| + 5..|v.baseVersion| + 9] == "+dev";
        assert r[|r| - 1] == 'v';
        r
    else
      assert prefix[|prefix| - 2] == 'v';
      prefix
  }

  /** __toString: the display string without the build number. */
  function ToString(v: VersionString): (r: string)
    ensures r == FullVersion(v, false)
    ensures r == v.baseVersion + DistributionTag + (if v.development then "+dev" else "")
  {
    FullVersion(v, false)
  }

  function Sign(x: int): (r: int)
    ensures r == -1 || r == 0 || r == 1
    ensures (r < 0 <==> x < 0) && (r == 0 <==> x == 0) && (r > 0 <==> x > 0)
  {
    if x > 0 then 1 else if x < 0 then -1 else 0
  }

  /**
   * compare: with diff, the raw rank difference target - this; otherwise
   * 1 when target is newer, -1 when it is older, 0 when the same. At equal
   * rank a development target is older than a release `this`, and otherwise
   * the build numbers decide.
   */
  function Compare(self: VersionString, target: VersionString, diff: bool): (r: int)
    ensures diff ==> r + Number(self) == Number(target)
    ensures !diff ==> r == -1 || r == 0 || r == 1
    ensures !diff && Number(self) != Number(target) ==> r == Sign(Number(target) - Number(self))
    ensures !diff && Number(self) == Number(target) ==>
      r == (if target.development && !self.development then -1 else Sign(target.build - self.build))
  {
    var number := Number(self);
    var tNumber := Number(target);
    if diff then tNumber - number
    else if number > tNumber then -1
    else if number < tNumber then 1
    else if target.development && !self.development then -1
    else if target.build > self.build then 1
    else if target.build < self.build then -1
    else 0
  }
}
