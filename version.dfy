/** The node's version string: "v<year>.<month>.<day>.<hour><minute>-<phase>",
    each number zero-padded, with the first eight characters of the git
    commit appended in brackets when the commit is at least that long. */
module Version {
  import opened Decimal

  /** The development phase the build reports. */
  const O2ULPhase := "alpha"

  /** The calendar fields of a UTC `time.Time` as `Year()`, `Month()`,
      `Day()`, `Hour()` and `Minute()` return them. */
  datatype Clock = Clock(year: int, month: int, day: int, hour: int, minute: int)

  /** The year has at most four digits and the other fields at most two,
      as every calendar time from year 0 to 9999 has. */
  predicate FieldsFit(t: Clock)
  {
    0 <= t.year < 10000 && 0 <= t.month < 100 && 0 <= t.day < 100 && 0 <= t.hour < 100 && 0 <= t.minute < 100
  }

  /** `fmt.Sprintf("v%04d.%02d.%02d.%02d%02d-%s", ...)` of the clock and phase. */
  function VersionBase(t: Clock, phase: string): string
  {
    "v" + FormatInt(t.year, 4) + "." + FormatInt(t.month, 2) + "." + FormatInt(t.day, 2) + "."
      + FormatInt(t.hour, 2) + FormatInt(t.minute, 2) + "-" + phase
  }

  const CommitLength := 8

  /** `FormatVersion(timestamp, phase, gitCommit)`: the base string, followed
      by " [" + the commit's first eight characters + "]" exactly when the
      commit has at least eight. */
  function FormatVersion(t: Clock, phase: string, gitCommit: string): (v: string)
    ensures |VersionBase(t, phase)| <= |v| && v[..|VersionBase(t, phase)|] == VersionBase(t, phase)
    ensures |gitCommit| < CommitLength <==> |v| == |VersionBase(t, phase)|
    ensures |gitCommit| >= CommitLength ==>
      var n := |VersionBase(t, phase)|;
      && |v| == n + CommitLength + 3
      && v[n..n + 2] == " [" && v[n + 2..n + 2 + CommitLength] == gitCommit[..CommitLength] && v[|v| - 1] == ']'
  {
    var base := VersionBase(t, phase);
    if |gitCommit| >= CommitLength then
      CommitSuffix(base, gitCommit[..CommitLength]);
      base + " [" + gitCommit[..CommitLength] + "]"
    else base
  }

  /** Where the bracketed commit sits after any base string. */
  lemma CommitSuffix(base: string, tag: string)
    ensures var v := base + " [" + tag + "]";
      var n := |base|;
      && |v| == n + |tag| + 3 && v[..n] == base
      && v[n..n + 2] == " [" && v[n + 2..n + 2 + |tag|] == tag && v[|v| - 1] == ']'
  {
    var v := base + " [" + tag + "]";
    assert v[..|base|] == base;
  }

  /** `CustomVersionWithCommit(commit, date)` at clock reading `now`: the
      phase field is always "alpha"; the date argument is not used. */
  function CustomVersionWithCommit(now: Clock, commit: string, date: string): (v: string)
    ensures FieldsFit(now) ==> |v| >= 22 && v[16] == '-' && v[17..22] == "alpha"
  {
    var v := FormatVersion(now, O2ULPhase, commit);
    if FieldsFit(now) then
      PhaseField(now, O2ULPhase, commit);
      v
    else v
  }

  /** Where the fields of "v<y>.<mo>.<d>.<h><mi>-<phase>" sit, for a
      four-character year and two-character other fields. */
  lemma Layout(y: string, mo: string, d: string, h: string, mi: string, phase: string)
    requires |y| == 4 && |mo| == 2 && |d| == 2 && |h| == 2 && |mi| == 2
    ensures var b := "v" + y + "." + mo + "." + d + "." + h + mi + "-" + phase;
      && |b| == 17 + |phase|
      && b[0] == 'v' && b[5] == '.' && b[8] == '.' && b[11] == '.' && b[16] == '-'
      && b[1..5] == y && b[6..8] == mo && b[9..11] == d && b[12..14] == h && b[14..16] == mi
      && b[17..] == phase
  {
    var p1 := "v" + y + ".";
    var p2 := p1 + mo + ".";
    var p3 := p2 + d + ".";
    var p4 := p3 + h + mi + "-";
    var b := p4 + phase;
    assert p1[1..5] == y;
    assert p2[..6] == p1 && p2[6..8] == mo;
    assert p3[..9] == p2 && p3[9..11] == d;
    assert p4[..12] == p3 && p4[12..14] == h && p4[14..16] == mi;
    assert b[..17] == p4 && b[17..] == phase;
  }

  /** For a year of at most four digits the fields sit at fixed offsets and
      read back as the clock's numbers: the string is 17 characters plus the
      phase. */
  lemma VersionFieldsReadBack(t: Clock, phase: string)
    requires FieldsFit(t)
    ensures var b := VersionBase(t, phase);
      && |b| == 17 + |phase|
      && b[0] == 'v' && b[5] == '.' && b[8] == '.' && b[11] == '.' && b[16] == '-'
      && AllDigits(b[1..5]) && ParseDecimal(b[1..5]) == t.year
      && AllDigits(b[6..8]) && ParseDecimal(b[6..8]) == t.month
      && AllDigits(b[9..11]) && ParseDecimal(b[9..11]) == t.day
      && AllDigits(b[12..14]) && ParseDecimal(b[12..14]) == t.hour
      && AllDigits(b[14..16]) && ParseDecimal(b[14..16]) == t.minute
      && b[17..] == phase
  {
    assert Pow10(2) == 100;
    assert Pow10(4) == 10000;
    FixedWidthRoundTrip(t.year, 4);
    FixedWidthRoundTrip(t.month, 2);
    FixedWidthRoundTrip(t.day, 2);
    FixedWidthRoundTrip(t.hour, 2);
    FixedWidthRoundTrip(t.minute, 2);
    Layout(FormatInt(t.year, 4), FormatInt(t.month, 2), FormatInt(t.day, 2),
           FormatInt(t.hour, 2), FormatInt(t.minute, 2), phase);
  }

  /** With a year of at most four digits, the phase sits right after the
      '-' at offset 16, whether or not a commit follows. */
  lemma PhaseField(t: Clock, phase: string, commit: string)
    requires FieldsFit(t)
    ensures var v := FormatVersion(t, phase, commit);
      |v| >= 17 + |phase| && v[16] == '-' && v[17..17 + |phase|] == phase
  {
    VersionFieldsReadBack(t, phase);
    var b := VersionBase(t, phase);
    var v := FormatVersion(t, phase, commit);
    assert v[..|b|] == b;
    assert v[17..17 + |phase|] == b[17..];
  }

  /** Two versions built at the same clock and phase are equal exactly when
      both commits are too short to show, or both show the same eight
      characters. */
  lemma FormatVersionCommitTag(t: Clock, phase: string, c1: string, c2: string)
    ensures FormatVersion(t, phase, c1) == FormatVersion(t, phase, c2) <==>
      (|c1| < CommitLength && |c2| < CommitLength)
      || (|c1| >= CommitLength && |c2| >= CommitLength && c1[..CommitLength] == c2[..CommitLength])
  {
    var n := |VersionBase(t, phase)|;
    var v1, v2 := FormatVersion(t, phase, c1), FormatVersion(t, phase, c2);
    if |c1| >= CommitLength && |c2| >= CommitLength && v1 == v2 {
      assert v1[n + 2..n + 2 + CommitLength] == v2[n + 2..n + 2 + CommitLength];
    }
  }
}
