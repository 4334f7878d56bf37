/**
 * The semantic-version helpers of `src/version.ts`: `incrementVersion`,
 * `isValidVersion` and `extractVersion`. A number is JavaScript's
 * `parseInt` result: an integer, or `None` for `NaN`.
 */
module Version {
  import opened Wrappers
  import opened Strings
  import Sequences
  import opened Numbers

  datatype Bump = Major | Minor | Patch

  /** `version.replace(/^v/i, "")`: one leading `v` or `V` is dropped. */
  function StripV(s: string): (r: string)
    ensures s != [] && (s[0] == 'v' || s[0] == 'V') ==> r == s[1..]
    ensures s == [] || (s[0] != 'v' && s[0] != 'V') ==> r == s
  {
    if s != [] && (s[0] == 'v' || s[0] == 'V') then s[1..] else s
  }

  /** The length of the run of digits at the start of `s`. */
  function DigitRun(s: string): (k: nat)
    ensures k <= |s| && (forall i :: 0 <= i < k ==> IsDigit(s[i])) && (k == |s| || !IsDigit(s[k]))
  {
    if s != [] && IsDigit(s[0]) then 1 + DigitRun(s[1..]) else 0
  }

  /** `parseInt(s, 10)`: leading white space is skipped, one sign is
      read, then as many digits as there are; no digit at all is `NaN`. */
  function ParseInt(s: string): Option<int> {
    var t := TrimStart(s);
    var negative := t != [] && t[0] == '-';
    var u := if t != [] && (t[0] == '-' || t[0] == '+') then t[1..] else t;
    var k := DigitRun(u);
    if k == 0 then None
    else
      var n: int := DigitsValue(u[..k]);
      Some(if negative then -n else n)
  }

  /** `parts[i] || "0"`: a missing or empty component is `"0"`. */
  function Component(parts: seq<string>, i: nat): (c: string)
    ensures c != []
  {
    if i < |parts| && parts[i] != [] then parts[i] else "0"
  }

  /** The three numbers `incrementVersion` reads. */
  datatype Triple = Triple(major: Option<int>, minor: Option<int>, patch: Option<int>)

  function Components(version: string): Triple {
    var parts := Split(StripV(version), '.');
    Triple(ParseInt(Component(parts, 0)), ParseInt(Component(parts, 1)), ParseInt(Component(parts, 2)))
  }

  /** `n + 1`; `NaN + 1` is `NaN`. */
  function Inc(n: Option<int>): (r: Option<int>)
    ensures n.None? <==> r.None?
    ensures n.Some? ==> r.value == n.value + 1
  {
    match n
    case None => None
    case Some(i) => Some(i + 1)
  }

  /** The increment on the three numbers. */
  function Bumped(t: Triple, b: Bump): Triple {
    match b
    case Major => Triple(Inc(t.major), Some(0), Some(0))
    case Minor => Triple(t.major, Inc(t.minor), Some(0))
    case Patch => Triple(t.major, t.minor, Inc(t.patch))
  }

  /** `${n}` of a `parseInt` result. */
  function Show(n: Option<int>): string {
    match n
    case None => "NaN"
    case Some(i) => IntToString(i)
  }

  function Render(t: Triple): string {
    Show(t.major) + "." + Show(t.minor) + "." + Show(t.patch)
  }

  /** `incrementVersion(version, type)` */
  function IncrementVersion(version: string, b: Bump): string {
    Render(Bumped(Components(version), b))
  }

  /** The regex `^\d+\.\d+\.\d+$`. */
  predicate IsSemver(s: string) {
    var parts := Split(s, '.');
    |parts| == 3 && IsDigits(parts[0]) && IsDigits(parts[1]) && IsDigits(parts[2])
  }

  /** `isValidVersion(version)` */
  predicate IsValidVersion(version: string) {
    IsSemver(StripV(version))
  }

  /** `extractVersion(version)`: `None` for a missing or empty version,
      otherwise the version without one leading `v` or `V`, unchecked. */
  function ExtractVersion(version: string): (r: Option<string>)
    ensures version == [] <==> r.None?
    ensures r.Some? ==> r.value == StripV(version) && |version| - 1 <= |r.value| <= |version|
  {
    if version == [] then None else Some(StripV(version))
  }

  // ---------------------------------------------------------------------
  // What parseInt reads

  /** The digits at the start are read, whatever follows them. */
  lemma ParseIntLeading(d: string, x: string)
    requires IsDigits(d) && (x == [] || !IsDigit(x[0]))
    ensures ParseInt(d + x) == Some(DigitsValue(d))
  {
    var s := d + x;
    assert !IsSpace(s[0]) && s[0] != '-' && s[0] != '+' by {
      assert s[0] == d[0];
    }
    assert DigitRun(s) == |d| by {
      assert forall i :: 0 <= i < |d| ==> s[i] == d[i];
      assert x != [] ==> s[|d|] == x[0];
    }
    assert s[..|d|] == d;
  }

  /** A text that starts with neither white space, a sign nor a digit
      reads as `NaN`. */
  lemma ParseIntNaN(s: string)
    requires s == [] || (!IsSpace(s[0]) && s[0] != '-' && s[0] != '+' && !IsDigit(s[0]))
    ensures ParseInt(s) == None
  {
  }

  /** `${n}` reads back as `n`. */
  lemma ParseIntShow(n: Option<int>)
    ensures ParseInt(Show(n)) == n
  {
    match n
    case None =>
      assert Show(n)[0] == 'N';
      ParseIntNaN(Show(n));
    case Some(i) =>
      if i < 0 {
        ParseIntNegative(-i);
      } else {
        var d := NatToString(i);
        ParseIntLeading(d, []);
        assert d + [] == d;
      }
  }

  /** `-` followed by the digits of `n` reads as `-n`. */
  lemma ParseIntNegative(n: nat)
    ensures ParseInt("-" + NatToString(n)) == Some(-(n as int))
  {
    var d := NatToString(n);
    var s := "-" + d;
    assert s[0] == '-' && s[1..] == d;
    assert TrimStart(s) == s;
    assert DigitRun(d) == |d|;
    assert d[..|d|] == d;
  }

  // ---------------------------------------------------------------------
  // The increment read back

  lemma ShowNoDot(n: Option<int>)
    ensures Show(n) != [] && '.' !in Show(n)
    ensures Show(n)[0] != 'v' && Show(n)[0] != 'V'
  {
    match n
    case None =>
    case Some(i) =>
      var d := NatToString(if i < 0 then -i else i);
      assert forall k :: 0 <= k < |d| ==> d[k] != '.';
  }

  /** Rendered numbers split back into the same three texts. */
  lemma RenderSplits(t: Triple)
    ensures Split(StripV(Render(t)), '.') == [Show(t.major), Show(t.minor), Show(t.patch)]
  {
    var a, b, c := Show(t.major), Show(t.minor), Show(t.patch);
    ShowNoDot(t.major);
    ShowNoDot(t.minor);
    ShowNoDot(t.patch);
    SplitThree(a, b, c);
    assert Render(t)[0] == a[0];
  }

  /** Reading the numbers of an incremented version gives the increment
      of the numbers read, `NaN` components included. */
  lemma IncrementReadsBack(version: string, b: Bump)
    ensures Components(IncrementVersion(version, b)) == Bumped(Components(version), b)
  {
    RenderReadsBack(Bumped(Components(version), b));
  }

  lemma RenderReadsBack(t: Triple)
    ensures Components(Render(t)) == t
  {
    RenderSplits(t);
    ShowNoDot(t.major);
    ShowNoDot(t.minor);
    ShowNoDot(t.patch);
    ComponentsOfThree(Render(t), Show(t.major), Show(t.minor), Show(t.patch));
    ParseIntShow(t.major);
    ParseIntShow(t.minor);
    ParseIntShow(t.patch);
  }

  lemma ComponentsOfThree(s: string, a: string, b: string, c: string)
    requires Split(StripV(s), '.') == [a, b, c] && a != [] && b != [] && c != []
    ensures Components(s) == Triple(ParseInt(a), ParseInt(b), ParseInt(c))
  {
    var parts := [a, b, c];
    assert Component(parts, 0) == a;
    assert Component(parts, 1) == b;
    assert Component(parts, 2) == c;
  }

  /** A missing or empty component counts as 0. */
  lemma MissingComponent(parts: seq<string>, i: nat)
    requires i >= |parts| || parts[i] == []
    ensures ParseInt(Component(parts, i)) == Some(0)
  {
    var z := Component(parts, i);
    assert z == "0";
    ParseIntLeading(z, []);
    assert z + [] == z;
  }

  /** A component that does not start with a digit (and is not blank at
      the front or signed) is `NaN`, and so is its increment. */
  lemma NaNComponent(version: string, i: nat)
    requires i < 3
    requires var c := Component(Split(StripV(version), '.'), i);
             !IsSpace(c[0]) && c[0] != '-' && c[0] != '+' && !IsDigit(c[0])
    ensures i == 0 ==> Components(version).major == None && Inc(Components(version).major) == None
    ensures i == 1 ==> Components(version).minor == None && Inc(Components(version).minor) == None
    ensures i == 2 ==> Components(version).patch == None && Inc(Components(version).patch) == None
  {
    ParseIntNaN(Component(Split(StripV(version), '.'), i));
  }

  // ---------------------------------------------------------------------
  // Valid versions

  /** The numbers of a valid version: all three read, none negative. */
  function ValidNumbers(version: string): (nat, nat, nat)
    requires IsValidVersion(version)
  {
    var parts := Split(StripV(version), '.');
    (DigitsValue(parts[0]), DigitsValue(parts[1]), DigitsValue(parts[2]))
  }

  lemma ValidComponents(version: string)
    requires IsValidVersion(version)
    ensures var n := ValidNumbers(version);
            Components(version) == Triple(Some(n.0), Some(n.1), Some(n.2))
  {
    var parts := Split(StripV(version), '.');
    ParseIntLeading(parts[0], []);
    ParseIntLeading(parts[1], []);
    ParseIntLeading(parts[2], []);
    assert parts[0] + [] == parts[0] && parts[1] + [] == parts[1] && parts[2] + [] == parts[2];
  }

  /** (major, minor, patch) order. */
  predicate Newer(a: (nat, nat, nat), b: (nat, nat, nat)) {
    a.0 > b.0 || (a.0 == b.0 && (a.1 > b.1 || (a.1 == b.1 && a.2 > b.2)))
  }

  function BumpedNumbers(n: (nat, nat, nat), b: Bump): (nat, nat, nat) {
    match b
    case Major => (n.0 + 1, 0, 0)
    case Minor => (n.0, n.1 + 1, 0)
    case Patch => (n.0, n.1, n.2 + 1)
  }

  /** Incrementing a valid version gives a valid version: `M+1.0.0`,
      `M.m+1.0` or `M.m.p+1`, newer than the one it came from. */
  lemma IncrementValid(version: string, b: Bump)
    requires IsValidVersion(version)
    ensures IsValidVersion(IncrementVersion(version, b))
    ensures ValidNumbers(IncrementVersion(version, b)) == BumpedNumbers(ValidNumbers(version), b)
    ensures Newer(ValidNumbers(IncrementVersion(version, b)), ValidNumbers(version))
  {
    var n := ValidNumbers(version);
    ValidComponents(version);
    var m := BumpedNumbers(n, b);
    BumpedSome(Triple(Some(n.0), Some(n.1), Some(n.2)), n, b);
    RenderValid(m);
  }

  lemma BumpedSome(t: Triple, n: (nat, nat, nat), b: Bump)
    requires t == Triple(Some(n.0), Some(n.1), Some(n.2))
    ensures var m := BumpedNumbers(n, b);
            Bumped(t, b) == Triple(Some(m.0), Some(m.1), Some(m.2))
  {
  }

  /** Three natural numbers render as a valid version that reads back as
      those numbers. */
  lemma RenderValid(m: (nat, nat, nat))
    ensures IsValidVersion(Render(Triple(Some(m.0), Some(m.1), Some(m.2))))
    ensures ValidNumbers(Render(Triple(Some(m.0), Some(m.1), Some(m.2)))) == m
  {
    var t := Triple(Some(m.0), Some(m.1), Some(m.2));
    RenderSplits(t);
    assert Show(t.major) == NatToString(m.0);
    assert Show(t.minor) == NatToString(m.1);
    assert Show(t.patch) == NatToString(m.2);
  }

  /** Three digit runs joined by dots form a semantic version, and
      those are the only ones; together the two lemmas say that
      `isValidVersion` holds exactly of `d.d.d`, with or without one
      leading `v` or `V`. */
  lemma SemverOf(a: string, b: string, c: string)
    requires IsDigits(a) && IsDigits(b) && IsDigits(c)
    ensures var s := a + "." + b + "." + c;
            IsSemver(s) && IsValidVersion(s) && IsValidVersion("v" + s) && IsValidVersion("V" + s)
  {
    assert forall k :: 0 <= k < |a| ==> a[k] != '.';
    assert forall k :: 0 <= k < |b| ==> b[k] != '.';
    assert forall k :: 0 <= k < |c| ==> c[k] != '.';
    SplitThree(a, b, c);
    SemverWithV(a + "." + b + "." + c);
  }

  /** A semantic version is valid as it is and after one `v` or `V`. */
  lemma SemverWithV(s: string)
    requires IsSemver(s)
    ensures IsValidVersion(s) && IsValidVersion("v" + s) && IsValidVersion("V" + s)
  {
    SemverFirstDigit(s);
    StripOneV(s, 'v');
    StripOneV(s, 'V');
  }

  lemma StripOneV(s: string, v: char)
    requires v == 'v' || v == 'V'
    requires IsSemver(s)
    ensures StripV([v] + s) == s && IsValidVersion([v] + s)
  {
    assert ([v] + s)[1..] == s;
  }

  lemma SemverFirstDigit(s: string)
    requires IsSemver(s)
    ensures s != [] && IsDigit(s[0])
  {
    var p := Split(s, '.');
    SemverParts(s);
    assert s[0] == p[0][0];
  }

  /** Three texts without dots joined by dots split back. */
  lemma SplitThree(a: string, b: string, c: string)
    requires '.' !in a && '.' !in b && '.' !in c
    ensures Split(a + "." + b + "." + c, '.') == [a, b, c]
  {
    Join3(a, b, c, '.');
    SplitJoin([a, b, c], '.');
  }

  lemma SemverParts(s: string)
    requires IsSemver(s)
    ensures var p := Split(s, '.'); s == p[0] + "." + p[1] + "." + p[2]
  {
    var p := Split(s, '.');
    JoinSplit(s, '.');
    Sequences.Three(p);
    Join3(p[0], p[1], p[2], '.');
  }

  /** A semantic version holds only digits and dots, so `1.2.3-beta` and
      `vv1.2.3` are not valid. */
  lemma SemverChars(s: string)
    requires IsSemver(s)
    ensures forall i :: 0 <= i < |s| ==> IsDigit(s[i]) || s[i] == '.'
  {
    SemverParts(s);
  }

  /** Two digit runs are not a valid version: `1.2` is refused. */
  lemma TwoPartsInvalid(a: string, b: string)
    requires IsDigits(a) && IsDigits(b)
    ensures !IsValidVersion(a + "." + b)
  {
    var parts := [a, b];
    assert forall k :: 0 <= k < |a| ==> a[k] != '.';
    assert forall k :: 0 <= k < |b| ==> b[k] != '.';
    assert parts[1..] == [b];
    assert Join(parts, '.') == a + "." + b;
    SplitJoin(parts, '.');
    assert (a + "." + b)[0] == a[0];
  }

  /** Only the first three components are read; any further ones do not
      change the result. */
  lemma ExtraComponentsIgnored(v: string, w: string)
    requires var p, q := Split(StripV(v), '.'), Split(StripV(w), '.');
             |p| >= 3 && |q| >= 3 && p[..3] == q[..3]
    ensures Components(v) == Components(w)
  {
    var p, q := Split(StripV(v), '.'), Split(StripV(w), '.');
    SamePrefix(p, q, 0);
    SamePrefix(p, q, 1);
    SamePrefix(p, q, 2);
  }

  lemma SamePrefix(p: seq<string>, q: seq<string>, i: nat)
    requires |p| >= 3 && |q| >= 3 && p[..3] == q[..3] && i < 3
    ensures Component(p, i) == Component(q, i)
  {
    assert p[i] == p[..3][i] && q[i] == q[..3][i];
  }
}
