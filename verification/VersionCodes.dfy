/**
 Android version codes: `getAndroidVersionInfo` of tools/release-notes.js and
 `computeDevVersionCode` of tools/android-dev-version-code.js.
 A version is already split at its dots and its hyphen.
 */
module VersionCodes {
  import opened Wrappers
  import opened Decimals

  /** `rc.3` is a label with number 3, a bare `rc` has no number. */
  datatype PreRelease = PreRelease(name: string, number: Option<nat>)

  datatype Version = Version(major: nat, minor: nat, patch: nat, pre: Option<PreRelease>)

  function PadStart(s: string, width: nat): (r: string)
    ensures |r| == if |s| < width then width else |s|
    decreases width - |s|
  {
    if |s| >= width then s else PadStart(['0'] + s, width)
  }

  lemma {:induction false} PadStartDigits(s: string, width: nat)
    requires forall i | 0 <= i < |s| :: IsDigit(s[i])
    ensures forall i | 0 <= i < |PadStart(s, width)| :: IsDigit(PadStart(s, width)[i])
    ensures FromDecimal(PadStart(s, width)) == FromDecimal(s)
    decreases width - |s|
  {
    if |s| < width {
      FromDecimalConcat(['0'], s);
      PadStartDigits(['0'] + s, width);
    }
  }

  function Pow10(n: nat): nat {
    if n == 0 then 1 else 10 * Pow10(n - 1)
  }

  lemma TimesTen(x: nat, y: nat)
    ensures x * (10 * y) == 10 * (x * y)
  {
  }

  lemma {:induction false} FromDecimalConcat(a: string, b: string)
    requires forall i | 0 <= i < |a| :: IsDigit(a[i])
    requires forall i | 0 <= i < |b| :: IsDigit(b[i])
    ensures FromDecimal(a + b) == FromDecimal(a) * Pow10(|b|) + FromDecimal(b)
  {
    if b == [] {
      assert a + b == a;
    } else {
      var front := b[..|b| - 1];
      FromDecimalConcat(a, front);
      assert (a + b)[..|a + b| - 1] == a + front && (a + b)[|a + b| - 1] == b[|b| - 1];
      assert FromDecimal(a + b) == 10 * FromDecimal(a + front) + DigitValue(b[|b| - 1]);
      assert FromDecimal(b) == 10 * FromDecimal(front) + DigitValue(b[|b| - 1]);
      TimesTen(FromDecimal(a), Pow10(|front|));
    }
  }

  predicate AllDigits(s: string) {
    forall i | 0 <= i < |s| :: IsDigit(s[i])
  }

  /** Appending two or three digits shifts by a hundred or a thousand. */
  lemma AppendShortPart(a: string, b: string)
    requires AllDigits(a) && AllDigits(b) && AllDigits(a + b)
    ensures |b| == 2 ==> FromDecimal(a + b) == FromDecimal(a) * 100 + FromDecimal(b)
    ensures |b| == 3 ==> FromDecimal(a + b) == FromDecimal(a) * 1000 + FromDecimal(b)
  {
    FromDecimalConcat(a, b);
    SmallPowers();
  }

  lemma SmallPowers()
    ensures Pow10(2) == 100 && Pow10(3) == 1000
  {
    assert Pow10(1) == 10 * Pow10(0);
    assert Pow10(2) == 10 * Pow10(1);
  }

  /** A part padded to two digits: its digits, its value, and its length. */
  lemma PaddedPart(n: nat)
    ensures AllDigits(PadStart(ToDecimal(n), 2)) && FromDecimal(PadStart(ToDecimal(n), 2)) == n
    ensures n < 100 ==> |PadStart(ToDecimal(n), 2)| == 2
    ensures 100 <= n < 1000 ==> |PadStart(ToDecimal(n), 2)| == 3
  {
    PadStartDigits(ToDecimal(n), 2);
    DecimalRoundTrip(n);
    if n < 100 {
      TwoDigits(n);
    } else if n < 1000 {
      ThreeDigits(n);
    }
  }

  lemma TwoDigits(n: nat)
    requires n < 100
    ensures |PadStart(ToDecimal(n), 2)| == 2
  {
    assert n >= 10 ==> |ToDecimal(n / 10)| == 1;
  }

  lemma ThreeDigits(n: nat)
    requires 100 <= n < 1000
    ensures |PadStart(ToDecimal(n), 2)| == 3
  {
    assert |ToDecimal(n / 10)| == 2 by {
      assert |ToDecimal(n / 10 / 10)| == 1;
    }
  }

  /** The parts of the base version, each padded to two digits, run together. */
  function BaseDigits(v: Version): (s: string)
    ensures forall i | 0 <= i < |s| :: IsDigit(s[i])
  {
    PadStartDigits(ToDecimal(v.major), 2);
    PadStartDigits(ToDecimal(v.minor), 2);
    PadStartDigits(ToDecimal(v.patch), 2);
    PadStart(ToDecimal(v.major), 2) + PadStart(ToDecimal(v.minor), 2) + PadStart(ToDecimal(v.patch), 2)
  }

  function BaseVersionCode(v: Version): nat {
    FromDecimal(BaseDigits(v)) * 10000
  }

  /** The number a pre-release adds to its base code; a bare label counts as number 1. */
  function Slot(pre: PreRelease): nat {
    if pre.number.Some? then pre.number.value else 1
  }

  function VersionCode(v: Version): nat {
    match v.pre
    case Some(pre) => BaseVersionCode(v) + Slot(pre)
    case None => BaseVersionCode(v) + 9000
  }

  /** With two-digit minors, the base code is positional; a three-digit patch pushes major and minor one place up. */
  lemma BaseVersionCodeValue(v: Version)
    requires v.minor < 100
    ensures v.patch < 100 ==> BaseVersionCode(v) == (v.major * 10000 + v.minor * 100 + v.patch) * 10000
    ensures 100 <= v.patch < 1000 ==> BaseVersionCode(v) == (v.major * 100000 + v.minor * 1000 + v.patch) * 10000
  {
    var a, b, c := PadStart(ToDecimal(v.major), 2), PadStart(ToDecimal(v.minor), 2), PadStart(ToDecimal(v.patch), 2);
    PaddedPart(v.major);
    PaddedPart(v.minor);
    PaddedPart(v.patch);
    AppendShortPart(a, b);
    AppendShortPart(a + b, c);
  }

  // ----------------------------------------------------- precedence and codes

  predicate BasePrecedes(v: Version, w: Version) {
    || v.major < w.major
    || (v.major == w.major && v.minor < w.minor)
    || (v.major == w.major && v.minor == w.minor && v.patch < w.patch)
  }

  predicate SameBase(v: Version, w: Version) {
    v.major == w.major && v.minor == w.minor && v.patch == w.patch
  }

  /** ASCII order of two texts. */
  predicate TextBefore(a: string, b: string) {
    b != "" && (a == "" || a[0] < b[0] || (a[0] == b[0] && TextBefore(a[1..], b[1..])))
  }

  /** Identifiers: numeric ones by value and before all others, the others as texts. */
  predicate NameBefore(a: string, b: string) {
    if AllDigits(a) && AllDigits(b) then FromDecimal(a) < FromDecimal(b)
    else if AllDigits(a) || AllDigits(b) then AllDigits(a)
    else TextBefore(a, b)
  }

  /** A bare label has fewer fields, so it precedes every numbered one. */
  predicate NumberBefore(a: Option<nat>, b: Option<nat>) {
    b.Some? && (a.None? || a.value < b.value)
  }

  predicate LabelBefore(p: PreRelease, q: PreRelease) {
    NameBefore(p.name, q.name) || (!NameBefore(q.name, p.name) && NumberBefore(p.number, q.number))
  }

  /** Precedence by section 11 of Semantic Versioning 2.0.0. */
  predicate Precedes(v: Version, w: Version) {
    || BasePrecedes(v, w)
    || (SameBase(v, w) && v.pre.Some? && w.pre.None?)
    || (SameBase(v, w) && v.pre.Some? && w.pre.Some? && LabelBefore(v.pre.value, w.pre.value))
  }

  lemma {:induction false} TextBeforeIsTotal(a: string, b: string)
    ensures !(TextBefore(a, b) && TextBefore(b, a))
    ensures TextBefore(a, b) || TextBefore(b, a) || a == b
  {
    if a != "" && b != "" && a[0] == b[0] {
      TextBeforeIsTotal(a[1..], b[1..]);
      assert a == [a[0]] + a[1..] && b == [b[0]] + b[1..];
    }
  }

  /** An identifier as section 9 allows it: not empty, and no leading zero in a numeric one. */
  predicate ValidIdentifier(name: string) {
    name != "" && (AllDigits(name) && |name| > 1 ==> name[0] != '0')
  }

  predicate ValidLabel(v: Version) {
    v.pre.Some? ==> ValidIdentifier(v.pre.value.name)
  }

  lemma ToDecimalPush(n: nat, c: char)
    requires n > 0 && IsDigit(c)
    ensures ToDecimal(10 * n + DigitValue(c)) == ToDecimal(n) + [c]
  {
    var m := 10 * n + DigitValue(c);
    assert m / 10 == n && m % 10 == DigitValue(c) && m >= 10;
  }

  /** Numerals without leading zeros are what `ToDecimal` prints. */
  lemma {:induction false} NumeralRoundTrip(s: string)
    requires ValidIdentifier(s) && AllDigits(s)
    ensures ToDecimal(FromDecimal(s)) == s
    ensures s[0] != '0' ==> FromDecimal(s) > 0
  {
    var front, last := s[..|s| - 1], s[|s| - 1];
    assert s == front + [last];
    if |s| > 1 {
      assert front[0] == s[0];
      NumeralRoundTrip(front);
      ToDecimalPush(FromDecimal(front), last);
    } else {
      assert front == [];
      assert FromDecimal(s) == DigitValue(last);
    }
  }

  lemma {:induction false} NoLeadingZero(n: nat)
    ensures n > 0 ==> ToDecimal(n)[0] != '0'
    ensures n >= 10 ==> |ToDecimal(n)| >= 2
  {
    if n >= 10 {
      NoLeadingZero(n / 10);
    }
  }

  /** The numeric identifiers are exactly the printed numbers; any other text is an identifier if it is not empty. */
  lemma ValidIdentifierIff(name: string)
    ensures ValidIdentifier(name) <==>
            if AllDigits(name) then exists n: nat :: name == ToDecimal(n) else name != ""
  {
    if AllDigits(name) {
      if ValidIdentifier(name) {
        NumeralRoundTrip(name);
        assert name == ToDecimal(FromDecimal(name));
      }
      if n: nat :| name == ToDecimal(n) {
        NoLeadingZero(n);
      }
    }
  }

  /** Numeric identifiers come before all others. */
  lemma NumericNamesFirst(a: string, b: string)
    requires AllDigits(a) && !AllDigits(b)
    ensures NameBefore(a, b) && !NameBefore(b, a)
  {
  }

  lemma NameBeforeIsTotal(a: string, b: string)
    ensures !(NameBefore(a, b) && NameBefore(b, a))
    ensures ValidIdentifier(a) && ValidIdentifier(b) ==> NameBefore(a, b) || NameBefore(b, a) || a == b
  {
    TextBeforeIsTotal(a, b);
    if AllDigits(a) && AllDigits(b) && ValidIdentifier(a) && ValidIdentifier(b) {
      NumeralRoundTrip(a);
      NumeralRoundTrip(b);
    }
  }

  /** Precedence is a total order: of two different versions exactly one comes first. */
  lemma PrecedenceIsTotal(v: Version, w: Version)
    requires ValidLabel(v) && ValidLabel(w)
    ensures !(Precedes(v, w) && Precedes(w, v))
    ensures Precedes(v, w) || Precedes(w, v) <==> v != w
  {
    if v.pre.Some? && w.pre.Some? {
      NameBeforeIsTotal(v.pre.value.name, w.pre.value.name);
    }
  }

  /** The versions the scheme has room for, bare labels included. */
  predicate InScheme(v: Version) {
    v.minor < 100 && v.patch < 100 && (v.pre.Some? ==> Slot(v.pre.value) < 9000)
  }

  /** What is added to the base code. */
  function Place(v: Version): nat {
    if v.pre.Some? then Slot(v.pre.value) else 9000
  }

  function BaseNumber(v: Version): nat {
    (v.major * 100 + v.minor) * 100 + v.patch
  }

  lemma CodeInParts(v: Version)
    requires InScheme(v)
    ensures VersionCode(v) == BaseNumber(v) * 10000 + Place(v) && Place(v) <= 9000
  {
    BaseVersionCodeValue(v);
  }

  /** Numbers in two parts, the second below `unit`, compare part by part. */
  lemma PartsOrder(unit: nat, a: nat, x: nat, b: nat, y: nat)
    requires x < unit && y < unit
    ensures a * unit + x < b * unit + y <==> a < b || (a == b && x < y)
    ensures a * unit + x == b * unit + y <==> a == b && x == y
  {
    if a < b {
      assert (a + 1) * unit <= b * unit;
    } else if b < a {
      assert (b + 1) * unit <= a * unit;
    }
  }

  lemma BaseOrder(v: Version, w: Version)
    requires InScheme(v) && InScheme(w)
    ensures BaseNumber(v) < BaseNumber(w) <==> BasePrecedes(v, w)
    ensures BaseNumber(v) == BaseNumber(w) <==> SameBase(v, w)
  {
    PartsOrder(100, v.major * 100 + v.minor, v.patch, w.major * 100 + w.minor, w.patch);
    PartsOrder(100, v.major, v.minor, w.major, w.minor);
  }

  lemma CodeOrder(v: Version, w: Version)
    requires InScheme(v) && InScheme(w)
    ensures VersionCode(v) < VersionCode(w) <==> BasePrecedes(v, w) || (SameBase(v, w) && Place(v) < Place(w))
    ensures VersionCode(v) == VersionCode(w) <==> SameBase(v, w) && Place(v) == Place(w)
  {
    CodeInParts(v);
    CodeInParts(w);
    BaseOrder(v, w);
    PartsOrder(10000, BaseNumber(v), Place(v), BaseNumber(w), Place(w));
  }

  /** The codes of two versions compare as the versions do. */
  predicate OrderedAlike(v: Version, w: Version) {
    && (Precedes(v, w) <==> VersionCode(v) < VersionCode(w))
    && (Precedes(w, v) <==> VersionCode(w) < VersionCode(v))
  }

  /**
   Two labels whose numbers tell a different story than the labels: the earlier name does
   not have the smaller number, or one label is bare and the other numbered 0 or 1.
   */
  predicate Misnumbered(p: PreRelease, q: PreRelease) {
    if NameBefore(p.name, q.name) then Slot(p) >= Slot(q)
    else if NameBefore(q.name, p.name) then Slot(q) >= Slot(p)
    else p.number.None? != q.number.None? && Slot(p) <= 1 && Slot(q) <= 1
  }

  /**
   Codes order versions as precedence does, except exactly for two misnumbered pre-releases
   of one base: the code of a pre-release holds its number but not its name.
   */
  lemma CodesFollowPrecedenceIff(v: Version, w: Version)
    requires InScheme(v) && InScheme(w)
    ensures OrderedAlike(v, w) <==>
            !(SameBase(v, w) && v.pre.Some? && w.pre.Some? && Misnumbered(v.pre.value, w.pre.value))
  {
    CodeOrder(v, w);
    CodeOrder(w, v);
    if v.pre.Some? && w.pre.Some? {
      NameBeforeIsTotal(v.pre.value.name, w.pre.value.name);
    }
  }

  /** Equal codes mean the same version up to the name of the label, and to a bare label counting as 1. */
  lemma CodesIdentifyVersions(v: Version, w: Version)
    requires InScheme(v) && InScheme(w)
    ensures VersionCode(v) == VersionCode(w) <==>
            && SameBase(v, w) && (v.pre.Some? <==> w.pre.Some?)
            && (v.pre.Some? ==> Slot(v.pre.value) == Slot(w.pre.value))
  {
    CodeOrder(v, w);
  }

  /** A pre-release sorts below its own release if and only if its number is below 9000. */
  lemma PreReleaseBelowReleaseIff(v: Version)
    requires v.pre.Some?
    ensures VersionCode(v) < VersionCode(v.(pre := None)) <==> Slot(v.pre.value) < 9000
  {
    assert BaseDigits(v) == BaseDigits(v.(pre := None));
  }

  /** A bare label, which precedes all its numbered forms, has the smaller code exactly from number 2 on and the same at 1. */
  lemma BareLabelCollides(v: Version, name: string, n: nat)
    ensures var bare, numbered := v.(pre := Some(PreRelease(name, None))), v.(pre := Some(PreRelease(name, Some(n))));
            && Precedes(bare, numbered)
            && (VersionCode(bare) < VersionCode(numbered) <==> n >= 2)
            && (VersionCode(bare) == VersionCode(numbered) <==> n == 1)
  {
    var bare, numbered := v.(pre := Some(PreRelease(name, None))), v.(pre := Some(PreRelease(name, Some(n))));
    assert BaseDigits(bare) == BaseDigits(numbered);
    NameBeforeIsTotal(name, name);
  }

  /** The version in the scheme that reads the same digits two by two. */
  function Twin(v: Version): Version {
    var digits := FromDecimal(BaseDigits(v));
    Version(digits / 10000, digits / 100 % 100, digits % 100, v.pre)
  }

  lemma TwinSharesCode(v: Version)
    ensures Twin(v).minor < 100 && Twin(v).patch < 100 && VersionCode(Twin(v)) == VersionCode(v)
  {
    var digits := FromDecimal(BaseDigits(v));
    BaseVersionCodeValue(Twin(v));
    assert digits == digits / 100 * 100 + digits % 100;
    assert digits / 100 == digits / 10000 * 100 + digits / 100 % 100;
  }

  /**
   Minor and patch have at most two digits if and only if no other version of the scheme
   with the same label has the same code.
   */
  lemma UniqueCodeIff(v: Version)
    requires v.pre.Some? ==> Slot(v.pre.value) < 9000
    ensures v.minor < 100 && v.patch < 100 <==>
            forall w | InScheme(w) && w.pre == v.pre && VersionCode(w) == VersionCode(v) :: w == v
  {
    if v.minor < 100 && v.patch < 100 {
      forall w | InScheme(w) && w.pre == v.pre && VersionCode(w) == VersionCode(v)
        ensures w == v
      {
        CodesIdentifyVersions(v, w);
      }
    } else {
      TwinSharesCode(v);
    }
  }

  /** With a three-digit patch, the other version is found by moving the first digits one place up. */
  lemma ThreeDigitPatchCollides(v: Version)
    requires v.minor < 100 && 100 <= v.patch < 1000
    ensures var w := Version(10 * v.major + v.minor / 10, v.minor % 10 * 10 + v.patch / 100, v.patch % 100, v.pre);
            VersionCode(w) == VersionCode(v) && w != v && w.minor < 100 && w.patch < 100
  {
    var w := Version(10 * v.major + v.minor / 10, v.minor % 10 * 10 + v.patch / 100, v.patch % 100, v.pre);
    BaseVersionCodeValue(v);
    BaseVersionCodeValue(w);
    assert v.minor == v.minor / 10 * 10 + v.minor % 10 && v.patch == v.patch / 100 * 100 + v.patch % 100;
  }

  // -------------------------------------------------------------------- dev codes

  const BAND_SIZE := 1000

  datatype DevCode = Throws | Skip | DevCode(code: int)

  function ComputeDevVersionCode(baseCode: int, commits: int): DevCode {
    if baseCode <= 0 then Throws
    else if commits < 0 then Throws
    else if commits == 0 then Skip
    else if commits >= BAND_SIZE then Skip
    else DevCode.DevCode(baseCode + commits)
  }

  /** For every base and every count: refused, skipped, or the base plus the count. */
  lemma DevCodeCases(baseCode: int, commits: int)
    ensures var dev := ComputeDevVersionCode(baseCode, commits);
            && (dev.Throws? <==> baseCode <= 0 || commits < 0)
            && (dev.Skip? <==> baseCode > 0 && (commits == 0 || commits >= 1000))
            && (dev.DevCode? ==> dev.code == baseCode + commits)
  {
  }

  predicate StableInScheme(v: Version) {
    InScheme(v) && v.pre.None?
  }

  /** A dev build gets a code exactly for 1 to 999 commits, above its release and below every later version. */
  lemma DevCodesFillTheGap(tag: Version, commits: int)
    requires StableInScheme(tag)
    ensures var dev := ComputeDevVersionCode(VersionCode(tag), commits);
            && (dev.DevCode? <==> 1 <= commits <= 999)
            && (dev.Throws? <==> commits < 0)
            && (dev.DevCode? ==>
                  && VersionCode(tag) < dev.code
                  && forall later: Version | InScheme(later) && BasePrecedes(tag, later) :: dev.code < BaseVersionCode(later))
  {
    BaseVersionCodeValue(tag);
    forall later: Version | InScheme(later) && BasePrecedes(tag, later)
      ensures VersionCode(tag) + 1000 <= BaseVersionCode(later)
    {
      BaseVersionCodeValue(later);
    }
  }

  /** No dev code is the code of any release or pre-release. */
  lemma DevCodesNeverCollide(tag: Version, commits: int, v: Version)
    requires StableInScheme(tag) && InScheme(v) && ComputeDevVersionCode(VersionCode(tag), commits).DevCode?
    ensures ComputeDevVersionCode(VersionCode(tag), commits).code != VersionCode(v)
  {
    CodeInParts(tag);
    CodeInParts(v);
    PartsOrder(10000, BaseNumber(tag), 9000 + commits, BaseNumber(v), Place(v));
  }

  /** Dev codes grow with (tag, commits) in lexicographic order, so distinct builds differ. */
  lemma DevCodesIncrease(tag: Version, commits: int, tag': Version, commits': int)
    requires StableInScheme(tag) && StableInScheme(tag')
    requires ComputeDevVersionCode(VersionCode(tag), commits).DevCode?
    requires ComputeDevVersionCode(VersionCode(tag'), commits').DevCode?
    ensures ComputeDevVersionCode(VersionCode(tag), commits).code < ComputeDevVersionCode(VersionCode(tag'), commits').code
            <==> Precedes(tag, tag') || (SameBase(tag, tag') && commits < commits')
  {
    BaseVersionCodeValue(tag);
    BaseVersionCodeValue(tag');
  }

  // --------------------------------------------------------------- underscored text

  /** `padStart(10, '0')` and the underscore pattern, which matches ten digits only. */
  function WithUnderscores(code: nat): string {
    var s := PadStart(ToDecimal(code), 10);
    if |s| == 10 then s[0..2] + "_" + s[2..4] + "_" + s[4..6] + "_" + s[6..10] else s
  }

  function WithoutUnderscores(s: string): string {
    if s == "" then ""
    else if s[0] == '_' then WithoutUnderscores(s[1..])
    else [s[0]] + WithoutUnderscores(s[1..])
  }

  lemma {:induction false} WithoutUnderscoresConcat(a: string, b: string)
    ensures WithoutUnderscores(a + b) == WithoutUnderscores(a) + WithoutUnderscores(b)
  {
    if a == "" {
      assert a + b == b;
    } else {
      WithoutUnderscoresConcat(a[1..], b);
      assert a + b == [a[0]] + (a[1..] + b);
      assert (a + b)[1..] == a[1..] + b && (a + b)[0] == a[0];
      var kept := if a[0] == '_' then "" else [a[0]];
      assert WithoutUnderscores(a) == kept + WithoutUnderscores(a[1..]);
      assert WithoutUnderscores(a + b) == kept + WithoutUnderscores(a[1..] + b);
    }
  }

  lemma {:induction false} DigitsHaveNoUnderscore(s: string)
    requires forall i | 0 <= i < |s| :: IsDigit(s[i])
    ensures WithoutUnderscores(s) == s
  {
    if s != "" {
      DigitsHaveNoUnderscore(s[1..]);
    }
  }

  lemma SliceHasNoUnderscore(s: string, i: nat, j: nat)
    requires i <= j <= |s| && forall k | 0 <= k < |s| :: IsDigit(s[k])
    ensures WithoutUnderscores(s[i..j]) == s[i..j]
  {
    DigitsHaveNoUnderscore(s[i..j]);
  }

  lemma {:induction false} DecimalLength(n: nat, width: nat)
    requires n < Pow10(width) && width > 0
    ensures |ToDecimal(n)| <= width
  {
    if n >= 10 {
      DecimalLength(n / 10, width - 1);
    }
  }

  lemma UnderscoresOut(s: string)
    requires |s| == 10 && forall i | 0 <= i < |s| :: IsDigit(s[i])
    ensures WithoutUnderscores(s[0..2] + "_" + s[2..4] + "_" + s[4..6] + "_" + s[6..10]) == s
  {
    var a, b, c, d := s[0..2], s[2..4], s[4..6], s[6..10];
    SliceHasNoUnderscore(s, 0, 2);
    SliceHasNoUnderscore(s, 2, 4);
    SliceHasNoUnderscore(s, 4, 6);
    SliceHasNoUnderscore(s, 6, 10);
    assert WithoutUnderscores("_") == "";
    WithoutUnderscoresConcat(a + "_" + b + "_" + c + "_", d);
    WithoutUnderscoresConcat(a + "_" + b + "_" + c, "_");
    WithoutUnderscoresConcat(a + "_" + b + "_", c);
    WithoutUnderscoresConcat(a + "_" + b, "_");
    WithoutUnderscoresConcat(a + "_", b);
    WithoutUnderscoresConcat(a, "_");
    assert a + b + c + d == s;
    assert WithoutUnderscores(a) + "" == a && a + b + "" == a + b && a + b + c + "" == a + b + c;
  }

  /** Up to ten digits, dropping the underscores gives the code back as ten digits. */
  lemma UnderscoresRoundTrip(code: nat)
    requires code < 10000000000
    ensures var plain := WithoutUnderscores(WithUnderscores(code));
            && |WithUnderscores(code)| == 13 && |plain| == 10
            && (forall i | 0 <= i < |plain| :: IsDigit(plain[i])) && FromDecimal(plain) == code
  {
    PowerTen10();
    DecimalLength(code, 10);
    PadStartDigits(ToDecimal(code), 10);
    DecimalRoundTrip(code);
    UnderscoresOut(PadStart(ToDecimal(code), 10));
  }

  /** Up to ten digits the underscores stand after two, four and six digits; longer codes have none. */
  lemma UnderscorePositions(code: nat)
    ensures var text := WithUnderscores(code);
            if code < 10000000000 then |text| == 13 && forall i | 0 <= i < 13 :: text[i] == '_' <==> i in {2, 5, 8}
            else text == ToDecimal(code)
  {
    PowerTen10();
    PadStartDigits(ToDecimal(code), 10);
    if code < 10000000000 {
      DecimalLength(code, 10);
      UnderscoresAt(PadStart(ToDecimal(code), 10));
    } else {
      DecimalLongerThan(code, 10);
    }
  }

  lemma UnderscoresAt(s: string)
    requires |s| == 10 && AllDigits(s)
    ensures var text := s[0..2] + "_" + s[2..4] + "_" + s[4..6] + "_" + s[6..10];
            |text| == 13 && forall i | 0 <= i < 13 :: text[i] == '_' <==> i in {2, 5, 8}
  {
    assert !IsDigit('_');
  }

  lemma {:induction false} DecimalLongerThan(n: nat, width: nat)
    requires n >= Pow10(width)
    ensures |ToDecimal(n)| > width
  {
    if width > 0 {
      PowerPositive(width - 1);
      DecimalLongerThan(n / 10, width - 1);
    }
  }

  lemma {:induction false} PowerPositive(n: nat)
    ensures Pow10(n) > 0
  {
    if n > 0 {
      PowerPositive(n - 1);
    }
  }

  lemma PowerTen10()
    ensures Pow10(10) == 10000000000
  {
    assert Pow10(2) == 100;
    assert Pow10(4) == 100 * Pow10(2);
    assert Pow10(6) == 100 * Pow10(4);
    assert Pow10(8) == 100 * Pow10(6);
  }

  /** Versions up to major 99 stay within ten digits. */
  lemma SchemeFitsTenDigits(v: Version)
    requires InScheme(v)
    ensures VersionCode(v) < 10000000000 <==> v.major < 100
  {
    BaseVersionCodeValue(v);
  }
}
