/**
 * What the constructor accepts, what the rank encodes, and how compare
 * behaves, proved about the definitions in VersionStrings.
 */
module VersionStringFacts {
  import opened Wrappers
  import Decimal
  import Bits
  import opened VersionStrings

  // ---------------------------------------------------------------------
  // The recognizer accepts exactly the pattern's language.
  // ---------------------------------------------------------------------

  /** A digit run followed by something that is not a digit is split off whole. */
  lemma {:induction false} SpanDigitsOf(run: string, rest: string)
    requires Decimal.IsDigits(run)
    requires rest == [] || !Decimal.IsDigit(rest[0])
    ensures SpanDigits(run + rest) == (run, rest)
    decreases |run|
  {
    if run != [] {
      assert (run + rest)[1..] == run[1..] + rest;
      SpanDigitsOf(run[1..], rest);
      assert [run[0]] + run[1..] == run;
    } else {
      assert run + rest == rest;
    }
  }

  /** The greedy split finds the three digit runs of any string that splits that way. */
  lemma SplitGroupsFinds(s: string, g: Groups)
    requires SplitsAs(s, g)
    ensures SplitGroups(s) == Some(g)
  {
    var r2 := "." + (g.d3 + g.tail);
    var r1 := "." + (g.d2 + r2);
    SpanDigitsOf(g.d1, r1);
    assert r1[1..] == g.d2 + r2;
    SpanDigitsOf(g.d2, r2);
    assert r2[1..] == g.d3 + g.tail;
    SpanDigitsOf(g.d3, g.tail);
  }

  /** The optional group and the end anchor accept every tail a Shape can have. */
  lemma SuffixGroupOfTail(hyphen: bool, text: string, newline: bool)
    requires NoNewline(text)
    ensures SuffixGroup((if hyphen then "-" + text else "") + (if newline then "\n" else ""))
         == Some(if hyphen then text else "")
  {
    var t := (if hyphen then "-" + text else "") + (if newline then "\n" else "");
    var body := if hyphen then "-" + text else "";
    if newline {
      assert t[..|t| - 1] == body;
    } else if hyphen {
      assert t == body;
      assert t[|t| - 1] != '\n' by { assert t[|t| - 1] == ("-" + text)[|text|]; }
    }
    if hyphen {
      assert body[0] == '-' && body[1..] == text;
    }
  }

  /** Completeness: every string of the pattern's shape is accepted, with these fields. */
  lemma ParseComplete(d1: string, d2: string, d3: string, hyphen: bool, text: string, newline: bool,
                      isDevBuild: bool, buildNumber: int)
    requires WellFormedParts(d1, d2, d3, text)
    ensures Parse(Shape(d1, d2, d3, hyphen, text, newline), isDevBuild, buildNumber)
         == Some(VersionString(Shape(d1, d2, d3, hyphen, text, newline), if hyphen then text else "",
                               Decimal.Value(d1), Decimal.Value(d2), Decimal.Value(d3),
                               buildNumber, isDevBuild))
  {
    var tail := (if hyphen then "-" + text else "") + (if newline then "\n" else "");
    var s := Shape(d1, d2, d3, hyphen, text, newline);
    assert tail != "" ==> tail[0] == '-' || tail[0] == '\n';
    assert SplitsAs(s, Groups(d1, d2, d3, tail));
    SplitGroupsFinds(s, Groups(d1, d2, d3, tail));
    SuffixGroupOfTail(hyphen, text, newline);
  }

  /** Soundness: whatever is accepted has the pattern's shape, and the fields are its digit runs. */
  lemma ParseSound(s: string, isDevBuild: bool, buildNumber: int)
    requires Parse(s, isDevBuild, buildNumber).Some?
    ensures exists d1, d2, d3, hyphen, text, newline ::
      && WellFormedParts(d1, d2, d3, text)
      && s == Shape(d1, d2, d3, hyphen, text, newline)
      && Parse(s, isDevBuild, buildNumber).value
         == VersionString(s, if hyphen then text else "",
                          Decimal.Value(d1), Decimal.Value(d2), Decimal.Value(d3),
                          buildNumber, isDevBuild)
  {
    var g := SplitGroups(s).value;
    var t := g.tail;
    var sfx := SuffixGroup(t).value;
    var hyphen := t != "" && t != "\n";
    var newline := |t| > 0 && t[|t| - 1] == '\n';
    var text := if hyphen then sfx else "";
    assert (if hyphen then "-" + text else "") + (if newline then "\n" else "") == t;
    assert s == Shape(g.d1, g.d2, g.d3, hyphen, text, newline);
  }

  /** The constructor throws exactly when the input does not have the pattern's shape. */
  lemma ParseFailsIff(s: string, isDevBuild: bool, buildNumber: int)
    ensures Parse(s, isDevBuild, buildNumber).None? <==>
      !exists d1, d2, d3, hyphen, text, newline ::
        WellFormedParts(d1, d2, d3, text) && s == Shape(d1, d2, d3, hyphen, text, newline)
  {
    if Parse(s, isDevBuild, buildNumber).Some? {
      ParseSound(s, isDevBuild, buildNumber);
    } else {
      forall d1, d2, d3, hyphen, text, newline | WellFormedParts(d1, d2, d3, text)
        ensures s != Shape(d1, d2, d3, hyphen, text, newline)
      {
        ParseComplete(d1, d2, d3, hyphen, text, newline, isDevBuild, buildNumber);
      }
    }
  }

  /** Writing three numbers in decimal and parsing the result gives the numbers back. */
  lemma ParseFormattedNumbers(major: nat, minor: nat, patch: nat, isDevBuild: bool, buildNumber: int)
    ensures var s := Shape(Decimal.FromNat(major), Decimal.FromNat(minor), Decimal.FromNat(patch), false, "", false);
      Parse(s, isDevBuild, buildNumber) == Some(VersionString(s, "", major, minor, patch, buildNumber, isDevBuild))
  {
    var d1, d2, d3 := Decimal.FromNat(major), Decimal.FromNat(minor), Decimal.FromNat(patch);
    assert Decimal.Value(d1) == major && Decimal.Value(d2) == minor && Decimal.Value(d3) == patch;
    ParseComplete(d1, d2, d3, false, "", false, isDevBuild, buildNumber);
  }

  /** A digit group, with one extra leading zero when zero is set. */
  function Padded(d: string, zero: bool): (r: string)
    ensures Decimal.IsDigits(d) ==> Decimal.IsDigits(r) && |r| >= |d|
  {
    if zero then "0" + d else d
  }

  /**
   * Leading zeros on any of the groups change the stored base version but
   * not the parsed numbers, the suffix or the rank.
   */
  lemma ParseIgnoresLeadingZeros(d1: string, d2: string, d3: string, z1: bool, z2: bool, z3: bool,
                                 hyphen: bool, text: string, newline: bool, isDevBuild: bool, buildNumber: int)
    requires WellFormedParts(d1, d2, d3, text)
    ensures var v := Parse(Shape(d1, d2, d3, hyphen, text, newline), isDevBuild, buildNumber);
      var w := Parse(Shape(Padded(d1, z1), Padded(d2, z2), Padded(d3, z3), hyphen, text, newline), isDevBuild, buildNumber);
      && v.Some? && w.Some?
      && v.value.major == w.value.major && v.value.minor == w.value.minor && v.value.patch == w.value.patch
      && v.value.suffix == w.value.suffix && Number(v.value) == Number(w.value)
  {
    Decimal.LeadingZeroIgnored(d1);
    Decimal.LeadingZeroIgnored(d2);
    Decimal.LeadingZeroIgnored(d3);
    var e1, e2, e3 := Padded(d1, z1), Padded(d2, z2), Padded(d3, z3);
    assert Decimal.Value(e1) == Decimal.Value(d1);
    assert Decimal.Value(e2) == Decimal.Value(d2);
    assert Decimal.Value(e3) == Decimal.Value(d3);
    ParseComplete(d1, d2, d3, hyphen, text, newline, isDevBuild, buildNumber);
    ParseComplete(e1, e2, e3, hyphen, text, newline, isDevBuild, buildNumber);
  }

  /** An empty suffix after the hyphen reads as no suffix. */
  lemma ParseEmptySuffix()
    ensures Parse("1.2.3-", false, 0) == Some(VersionString("1.2.3-", "", 1, 2, 3, 0, false))
  {
    assert Decimal.Value("1") == 1 && Decimal.Value("2") == 2 && Decimal.Value("3") == 3;
    assert Shape("1", "2", "3", true, "", false) == "1.2.3-";
    ParseComplete("1", "2", "3", true, "", false, false, 0);
  }

  /** `$` also matches before one final newline. */
  lemma ParseFinalNewline()
    ensures Parse("1.2.3\n", false, 0) == Some(VersionString("1.2.3\n", "", 1, 2, 3, 0, false))
  {
    assert Decimal.Value("1") == 1 && Decimal.Value("2") == 2 && Decimal.Value("3") == 3;
    assert Shape("1", "2", "3", false, "", true) == "1.2.3\n";
    ParseComplete("1", "2", "3", false, "", true, false, 0);
  }

  /** Two digit groups are not enough. */
  lemma ParseRefusesTwoGroups()
    ensures Parse("1.2", false, 0).None?
  {
  }

  /** The digits must start the string. */
  lemma ParseRefusesLeadingLetter()
    ensures Parse("v1.2.3", false, 0).None?
  {
  }

  /** Text after the patch digits needs the hyphen. */
  lemma ParseRefusesSuffixWithoutHyphen()
    ensures Parse("1.2.3a", false, 0).None?
  {
    var g := Groups("1", "2", "3", "a");
    assert SplitsAs("1.2.3a", g);
    SplitGroupsFinds("1.2.3a", g);
    assert SuffixGroup(g.tail).None?;
  }

  /** `.` does not match a newline, so the suffix cannot hold one. */
  lemma ParseRefusesNewlineInSuffix()
    ensures Parse("1.2.3-a\nb", false, 0).None?
  {
    var g := Groups("1", "2", "3", "-a\nb");
    assert SplitsAs("1.2.3-a\nb", g);
    SplitGroupsFinds("1.2.3-a\nb", g);
    assert !NoNewline("a\nb") by { assert "a\nb"[1] == '\n'; }
    assert SuffixGroup(g.tail).None?;
  }

  /** `$` tolerates one final newline, not two. */
  lemma ParseRefusesTwoFinalNewlines()
    ensures Parse("1.2.3\n\n", false, 0).None?
  {
    var g := Groups("1", "2", "3", "\n\n");
    assert SplitsAs("1.2.3\n\n", g);
    SplitGroupsFinds("1.2.3\n\n", g);
    assert "\n\n"[..1] == "\n";
    assert SuffixGroup(g.tail).None?;
  }

  // ---------------------------------------------------------------------
  // The packed rank.
  // ---------------------------------------------------------------------

  /** With minor below 16 and patch below 32 the three fields do not overlap, so or-ing is adding. */
  lemma NumberPacked(v: VersionString)
    requires v.minor < 16 && v.patch < 32
    ensures Number(v) == v.major * 512 + v.minor * 32 + v.patch
  {
    Bits.Pow2Values();
    var high := v.major * 16 + v.minor;
    Bits.OrDisjointIsSum(v.major, 9, 512, v.minor * 32);
    assert high * 32 == v.major * 512 + v.minor * 32;
    assert Bits.Or(v.major * 512, v.minor * 32) == high * 32;
    Bits.OrDisjointIsSum(high, 5, 32, v.patch);
    assert Number(v) == Bits.Or(Bits.Or(v.major * 512, v.minor * 32), v.patch);
    assert Number(v) == Bits.Or(high * 32, v.patch);
  }

  /** The order of (major, minor, patch), most significant field first. */
  predicate PrecedesByFields(a: VersionString, b: VersionString) {
    || a.major < b.major
    || (a.major == b.major && a.minor < b.minor)
    || (a.major == b.major && a.minor == b.minor && a.patch < b.patch)
  }

  predicate SameFields(a: VersionString, b: VersionString) {
    a.major == b.major && a.minor == b.minor && a.patch == b.patch
  }

  /** Within the non-overlap bounds the rank is injective and orders versions field by field. */
  lemma NumberOrdersFields(a: VersionString, b: VersionString)
    requires a.minor < 16 && a.patch < 32 && b.minor < 16 && b.patch < 32
    ensures Number(a) < Number(b) <==> PrecedesByFields(a, b)
    ensures Number(a) == Number(b) <==> SameFields(a, b)
  {
    NumberPacked(a);
    NumberPacked(b);
    var la, lb := a.minor * 32 + a.patch, b.minor * 32 + b.patch;
    assert la < 512 && lb < 512;
    if a.major < b.major {
      assert a.major * 512 + 512 <= b.major * 512;
    } else if b.major < a.major {
      assert b.major * 512 + 512 <= a.major * 512;
    } else if a.minor < b.minor {
      assert a.minor * 32 + 32 <= b.minor * 32;
    } else if b.minor < a.minor {
      assert b.minor * 32 + 32 <= a.minor * 32;
    }
  }

  /**
   * Outside the bounds the fields collide: with an even major, minor + 16
   * spills into the lowest major bit and reads as the next major version.
   */
  lemma MinorOverflowCollides(v: VersionString, w: VersionString)
    requires v.major % 2 == 0 && w.major == v.major + 1
    requires w.minor < 16 && v.minor == w.minor + 16
    requires v.patch == w.patch && w.patch < 32
    ensures Number(v) == Number(w) && !SameFields(v, w)
  {
    NumberPacked(w);
    Bits.Pow2Values();
    var h := v.major / 2;
    assert v.major * 512 == h * 1024;
    Bits.OrDisjointIsSum(h, 10, 1024, v.minor * 32);
    var high := w.major * 16 + w.minor;
    assert v.minor * 32 == w.minor * 32 + 512;
    assert h * 1024 + v.minor * 32 == high * 32;
    assert Bits.Or(v.major * 512, v.minor * 32) == high * 32;
    Bits.OrDisjointIsSum(high, 5, 32, v.patch);
    assert Number(v) == Bits.Or(high * 32, v.patch);
    assert Number(v) == high * 32 + v.patch;
    assert Number(w) == high * 32 + w.patch;
  }

  /**
   * Likewise with an even minor below 15, patch + 32 spills into the lowest
   * minor bit and reads as the next minor version.
   */
  lemma PatchOverflowCollides(v: VersionString, w: VersionString)
    requires v.major == w.major
    requires v.minor % 2 == 0 && v.minor < 15 && w.minor == v.minor + 1
    requires w.patch < 32 && v.patch == w.patch + 32
    ensures Number(v) == Number(w) && !SameFields(v, w)
  {
    NumberPacked(w);
    Bits.Pow2Values();
    Bits.OrDisjointIsSum(v.major, 9, 512, v.minor * 32);
    var h := v.minor / 2;
    assert v.minor * 32 == h * 64;
    assert v.major * 512 + v.minor * 32 == (v.major * 8 + h) * 64;
    assert Bits.Or(v.major * 512, v.minor * 32) == (v.major * 8 + h) * 64;
    Bits.OrDisjointIsSum(v.major * 8 + h, 6, 64, v.patch);
    assert Number(v) == Bits.Or(Bits.Or(v.major * 512, v.minor * 32), v.patch);
    assert Number(v) == Bits.Or((v.major * 8 + h) * 64, v.patch);
    var n := v.major * 512 + v.minor * 32 + v.patch;
    assert Number(v) == n;
    assert n == w.major * 512 + w.minor * 32 + w.patch;
  }

  /** Ranks of a few small versions. */
  lemma NumberExamples()
    ensures Number(VersionString("1.0.0", "", 1, 0, 0, 0, false)) == 512
    ensures Number(VersionString("0.5.3", "", 0, 5, 3, 0, false)) == 163
    ensures Number(VersionString("2.1.4", "", 2, 1, 4, 0, false)) == 1060
  {
    NumberPacked(VersionString("1.0.0", "", 1, 0, 0, 0, false));
    NumberPacked(VersionString("0.5.3", "", 0, 5, 3, 0, false));
    NumberPacked(VersionString("2.1.4", "", 2, 1, 4, 0, false));
  }

  // ---------------------------------------------------------------------
  // compare.
  // ---------------------------------------------------------------------

  /** The raw difference is antisymmetric. */
  lemma CompareRawAntisymmetric(a: VersionString, b: VersionString)
    ensures Compare(a, b, true) == -Compare(b, a, true)
  {
  }

  /** When the ranks differ the normalised result is the sign of the raw one, and antisymmetric. */
  lemma CompareFollowsRank(a: VersionString, b: VersionString)
    requires Number(a) != Number(b)
    ensures Compare(a, b, false) == Sign(Compare(a, b, true))
    ensures Compare(a, b, false) == -Compare(b, a, false)
  {
  }

  /** Every version compares equal to itself, in both modes. */
  lemma CompareSelf(x: VersionString)
    ensures Compare(x, x, false) == 0 && Compare(x, x, true) == 0
  {
  }

  /**
   * A development build is older than a release of the same rank when the
   * release is `this`; asked the other way round, only the build numbers decide.
   */
  lemma CompareDevAgainstRelease(release: VersionString, dev: VersionString)
    requires Number(release) == Number(dev) && !release.development && dev.development
    ensures Compare(release, dev, false) == -1
    ensures Compare(dev, release, false) == Sign(release.build - dev.build)
  {
  }

  /**
   * Swapping the arguments negates the normalised result exactly when the
   * asymmetric development rule agrees with the build numbers.
   */
  lemma CompareAntisymmetricIff(a: VersionString, b: VersionString)
    ensures Compare(a, b, false) == -Compare(b, a, false) <==>
      || Number(a) != Number(b)
      || a.development == b.development
      || (if a.development then b.build > a.build else a.build > b.build)
  {
  }

  /** A release and a development build of one version, each older than the other. */
  lemma CompareMutuallyOlder()
    ensures var release := VersionString("1.0.0", "", 1, 0, 0, 0, false);
      var dev := VersionString("1.0.0", "", 1, 0, 0, 5, true);
      Compare(release, dev, false) == -1 && Compare(dev, release, false) == -1
  {
  }

  /** Within the non-overlap bounds compare orders versions by (major, minor, patch) first. */
  lemma CompareOrdersFields(a: VersionString, b: VersionString)
    requires a.minor < 16 && a.patch < 32 && b.minor < 16 && b.patch < 32
    requires !SameFields(a, b)
    ensures Compare(a, b, false) == 1 <==> PrecedesByFields(a, b)
    ensures Compare(a, b, false) == -1 <==> PrecedesByFields(b, a)
  {
    NumberOrdersFields(a, b);
    NumberOrdersFields(b, a);
  }

  // ---------------------------------------------------------------------
  // The display string.
  // ---------------------------------------------------------------------

  /** The build number written into the long display string reads back as itself. */
  lemma FullVersionBuildReadsBack(v: VersionString)
    requires v.development && v.build > 0
    ensures var r := FullVersion(v, true);
      |r| > |v.baseVersion| + 10 && Decimal.IsDigits(r[|v.baseVersion| + 10..])
      && Decimal.Value(r[|v.baseVersion| + 10..]) == v.build
  {
    var r := FullVersion(v, true);
    var digits := Decimal.FromNat(v.build);
    var head := v.baseVersion + DistributionTag + "+dev" + ".";
    assert BuildTag(v.build) == "." + digits;
    assert r == head + digits;
    assert r[|head|..] == digits;
  }

  /** The string conversion does not depend on the build number. */
  lemma ToStringIgnoresBuild(v: VersionString, build: int)
    ensures ToString(v) == ToString(v.(build := build))
  {
  }

  /** Display strings of a release and of development builds with and without a build number. */
  lemma FullVersionExamples()
    ensures FullVersion(VersionString("1.2.3", "", 1, 2, 3, 0, false), true) == "1.2.3-ipv6"
    ensures FullVersion(VersionString("1.2.3", "", 1, 2, 3, 7, true), true) == "1.2.3-ipv6+dev.7"
    ensures FullVersion(VersionString("1.2.3", "", 1, 2, 3, 0, true), true) == "1.2.3-ipv6+dev"
    ensures ToString(VersionString("1.2.3", "", 1, 2, 3, 7, true)) == "1.2.3-ipv6+dev"
  {
    assert Decimal.FromNat(7) == "7";
  }
}
