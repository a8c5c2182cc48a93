/**
  The `devicetype` identification sent to the bridge when an application asks
  for a key (src/models/device_type.rs): an application name and a device name,
  each checked against an anchored regular expression on construction, and
  formatted as `application#device`.
*/
module DeviceTypes {
  import opened Wrappers

  /** Upper bound of the repetition in `^\w{1,20}$` (the application name). */
  const ApplicationNameMax: nat := 20
  /** Upper bound of the repetition in `^\w{1,19}$` (the device name). */
  const DeviceNameMax: nat := 19
  /** The separator `to_string` puts between the two names. */
  const Separator: char := '#'

  datatype Error = ApplicationName | DeviceName

  datatype DeviceType = DeviceType(applicationName: string, deviceName: string)

  // ---------------------------------------------------------------------------
  // The character class `\w`
  // ---------------------------------------------------------------------------

  /** The ASCII members of `\w`: letters, digits and the underscore. */
  predicate IsAsciiWordChar(c: char) {
    ('a' <= c <= 'z') || ('A' <= c <= 'Z') || ('0' <= c <= '9') || c == '_'
  }

  /**
    The regex engine's `\w` is Unicode-aware, so it is a parameter of this
    model (`word`). Whatever table it is, on ASCII it is exactly
    `[0-9A-Za-z_]`; this predicate states that and nothing about other
    characters.
  */
  ghost predicate WordClass(word: char -> bool) {
    forall c: char :: c < '\U{80}' ==> (word(c) <==> IsAsciiWordChar(c))
  }

  lemma SeparatorIsNotWord(word: char -> bool)
    requires WordClass(word)
    ensures !word(Separator)
  {
    assert Separator < '\U{80}';
  }

  // ---------------------------------------------------------------------------
  // The anchored pattern `^\w{min,max}$`
  // ---------------------------------------------------------------------------

  /** What `^\w{min,max}$` accepts, stated declaratively. */
  ghost predicate WordRun(word: char -> bool, s: string, min: nat, max: nat) {
    && min <= |s| <= max
    && forall i | 0 <= i < |s| :: word(s[i])
  }

  /**
    Matching `^\w{min,max}$` against the whole of `s`, one character at a
    time: each character must be in the class and uses up one repetition;
    the text may end only once `min` repetitions are used.
  */
  function MatchRepeat(word: char -> bool, s: string, min: nat, max: nat): (m: bool)
    ensures m <==> WordRun(word, s, min, max)
    decreases |s|
  {
    if s == [] then min == 0
    else
      max > 0 && word(s[0]) && MatchRepeat(word, s[1..], if min == 0 then 0 else min - 1, max - 1)
  }

  /** The application name is what `^\w{1,20}$` accepts. */
  ghost predicate ValidApplicationName(word: char -> bool, s: string) {
    WordRun(word, s, 1, ApplicationNameMax)
  }

  /** The device name is what `^\w{1,19}$` accepts. */
  ghost predicate ValidDeviceName(word: char -> bool, s: string) {
    WordRun(word, s, 1, DeviceNameMax)
  }

  /** Both names of `dt` pass their patterns, as for every value `New` builds. */
  ghost predicate Valid(word: char -> bool, dt: DeviceType) {
    ValidApplicationName(word, dt.applicationName) && ValidDeviceName(word, dt.deviceName)
  }

  // ---------------------------------------------------------------------------
  // DeviceType::new and to_string
  // ---------------------------------------------------------------------------

  /**
    `DeviceType::new`: the application name is checked first, then the device
    name; on success both are stored as given.
  */
  function New(word: char -> bool, applicationName: string, deviceName: string): (r: Result<DeviceType, Error>)
    ensures r.Ok? <==> ValidApplicationName(word, applicationName) && ValidDeviceName(word, deviceName)
    ensures !ValidApplicationName(word, applicationName) ==> r == Err(ApplicationName)
    ensures ValidApplicationName(word, applicationName) && !ValidDeviceName(word, deviceName) ==> r == Err(DeviceName)
    ensures r.Ok? ==> r.value == DeviceType(applicationName, deviceName) && Valid(word, r.value)
  {
    if !MatchRepeat(word, applicationName, 1, ApplicationNameMax) then Err(ApplicationName)
    else if !MatchRepeat(word, deviceName, 1, DeviceNameMax) then Err(DeviceName)
    else Ok(DeviceType(applicationName, deviceName))
  }

  /** `to_string`: the application name, the separator, then the device name. */
  function ToString(dt: DeviceType): (s: string)
    ensures |s| == |dt.applicationName| + 1 + |dt.deviceName|
    ensures s[..|dt.applicationName|] == dt.applicationName
    ensures s[|dt.applicationName|] == Separator
    ensures s[|dt.applicationName| + 1..] == dt.deviceName
  {
    dt.applicationName + [Separator] + dt.deviceName
  }

  // ---------------------------------------------------------------------------
  // Properties of the formatted identifier
  // ---------------------------------------------------------------------------

  /** Number of occurrences of `c` in `s`. */
  function Occurrences(s: string, c: char): nat {
    if s == [] then 0 else (if s[0] == c then 1 else 0) + Occurrences(s[1..], c)
  }

  lemma {:induction false} OccurrencesAppend(a: string, b: string, c: char)
    ensures Occurrences(a + b, c) == Occurrences(a, c) + Occurrences(b, c)
  {
    if a != [] {
      assert (a + b)[1..] == a[1..] + b;
      OccurrencesAppend(a[1..], b, c);
    } else {
      assert a + b == b;
    }
  }

  lemma {:induction false} OccurrencesAbsent(s: string, c: char)
    requires forall i | 0 <= i < |s| :: s[i] != c
    ensures Occurrences(s, c) == 0
  {
    if s != [] {
      assert forall i | 0 <= i < |s| - 1 :: s[1..][i] == s[i + 1];
      OccurrencesAbsent(s[1..], c);
    }
  }

  /** A valid identifier is 3 to 40 characters long (1 + 1 + 1 up to 20 + 1 + 19). */
  lemma ToStringLength(word: char -> bool, dt: DeviceType)
    requires Valid(word, dt)
    ensures 3 <= |ToString(dt)| <= ApplicationNameMax + 1 + DeviceNameMax
  {
  }

  /**
    A valid identifier holds exactly one separator, and it sits right after
    the application name.
  */
  lemma ToStringOneSeparator(word: char -> bool, dt: DeviceType)
    requires WordClass(word) && Valid(word, dt)
    ensures Occurrences(ToString(dt), Separator) == 1
    ensures forall i | 0 <= i < |ToString(dt)| :: ToString(dt)[i] == Separator <==> i == |dt.applicationName|
  {
    SeparatorIsNotWord(word);
    var a, d := dt.applicationName, dt.deviceName;
    OccurrencesAbsent(a, Separator);
    OccurrencesAbsent(d, Separator);
    OccurrencesAppend(a, [Separator], Separator);
    OccurrencesAppend(a + [Separator], d, Separator);
    var s := ToString(dt);
    forall i | 0 <= i < |s|
      ensures s[i] == Separator <==> i == |a|
    {
      if i < |a| {
        assert s[i] == a[i];
      } else if i > |a| {
        assert s[i] == d[i - |a| - 1];
      }
    }
  }

  /** Distinct valid device types format to distinct identifiers. */
  lemma ToStringInjective(word: char -> bool, dt1: DeviceType, dt2: DeviceType)
    requires WordClass(word) && Valid(word, dt1) && Valid(word, dt2)
    requires ToString(dt1) == ToString(dt2)
    ensures dt1 == dt2
  {
    var s := ToString(dt1);
    ToStringOneSeparator(word, dt1);
    ToStringOneSeparator(word, dt2);
    assert s[|dt2.applicationName|] == Separator;
    assert |dt1.applicationName| == |dt2.applicationName|;
  }

  /** Strings of ASCII word characters are word runs whatever `word` does beyond ASCII. */
  lemma AsciiWordRun(word: char -> bool, s: string, min: nat, max: nat)
    requires WordClass(word)
    requires min <= |s| <= max
    requires forall i | 0 <= i < |s| :: s[i] < '\U{80}' && IsAsciiWordChar(s[i])
    ensures WordRun(word, s, min, max)
  {
  }

  /** The names accepted by the crate's unit tests: letters, digits and `_` are word characters. */
  lemma NewAcceptsExamples(word: char -> bool)
    requires WordClass(word)
    ensures New(word, "some", "thing") == Ok(DeviceType("some", "thing"))
    ensures New(word, "123_some", "thing_345") == Ok(DeviceType("123_some", "thing_345"))
  {
    AsciiWordRun(word, "some", 1, ApplicationNameMax);
    AsciiWordRun(word, "thing", 1, DeviceNameMax);
    AsciiWordRun(word, "123_some", 1, ApplicationNameMax);
    AsciiWordRun(word, "thing_345", 1, DeviceNameMax);
  }

  /** The names rejected by the crate's unit tests: an empty name fails its pattern. */
  lemma NewRejectsEmpty(word: char -> bool)
    requires WordClass(word)
    ensures New(word, "some", "") == Err(DeviceName)
    ensures New(word, "", "thing") == Err(ApplicationName)
  {
    AsciiWordRun(word, "some", 1, ApplicationNameMax);
  }

  /** The identifier checked by the crate's unit test. */
  lemma ToStringExample()
    ensures ToString(DeviceType("some", "thing")) == "some#thing"
  {
  }
}
