/**
 * CruiseControlVersionExtraction and TeamCityVersionExtraction: version numbers read from
 * the build server's environment variables into a VersionProperties object. The process
 * environment is a parameter (a missing variable is a missing key). An exception, whether
 * from int.Parse or from a setter's precondition, is a `false` outcome; since each setter
 * checks its argument before storing it, the field the failing step would have written
 * keeps its value.
 */
module CiExtraction {
  import opened Wrappers
  import opened Text
  import opened Version

  type Environment = map<string, string>

  const LabelVariable: string := "CCNetLabel"
  const NumericLabelVariable: string := "CCNetNumericLabel"
  const BuildDateVariable: string := "CCNetBuildDate"
  const BuildTimeVariable: string := "CCNetBuildTime"

  /** Environment.GetEnvironmentVariable: null (None) for a variable that is not set. */
  function Variable(env: Environment, name: string): Option<string>
  {
    if name in env then Some(env[name]) else None
  }

  /** `Variable(...) ?? string.Empty`. */
  function VariableOrEmpty(env: Environment, name: string): string
  {
    if name in env then env[name] else ""
  }

  /** `s.Substring(s.IndexOf('-') + 1)`: the text after the first '-', if there is one. */
  function AfterDash(s: string): Option<string>
  {
    var num := IndexOf(s, '-');
    if num == -1 then None else Some(s[num + 1..])
  }

  /** The text of `tail` up to its first '-', if there is one. */
  function MajorField(tail: string): Option<string>
  {
    var length := IndexOf(tail, '-');
    if length == -1 then None else Some(tail[..length])
  }

  /**
   * The text strictly between the first and the second '-' of the label, if it has two:
   * `label.Substring(num + 1, length)` with `length` the index of '-' after `num + 1`.
   */
  function MajorCandidate(buildLabel: Option<string>): Option<string>
  {
    if buildLabel.None? || buildLabel.value == "" then None
    else
      match AfterDash(buildLabel.value)
      case None => None
      case Some(tail) => MajorField(tail)
  }

  /**
   * The text after the second '-' up to the next '-', or, when there is no further '-',
   * up to the next '.'. The source's `num3 + 1 = num1 + num2 + 2` is the position just
   * after the second '-', so its substring is AfterDash applied twice.
   */
  function MinorCandidate(buildLabel: Option<string>): Option<string>
  {
    if buildLabel.None? || buildLabel.value == "" then None
    else
      match AfterDash(buildLabel.value)
      case None => None
      case Some(tail1) =>
        match AfterDash(tail1)
        case None => None
        case Some(tail2) => MinorField(tail2)
  }

  /** The text after the second '-': up to its first '-', or failing that up to its first '.'. */
  function MinorField(tail: string): Option<string>
  {
    var length := if IndexOf(tail, '-') != -1 then IndexOf(tail, '-') else IndexOf(tail, '.');
    if length == -1 then None else Some(tail[..length])
  }

  /** `a + [c] + rest` with no `c` in `a`: the first `c` is at |a|. */
  lemma IndexOfAfter(a: string, c: char, rest: string)
    requires c !in a
    ensures IndexOf(a + [c] + rest, c) == |a|
  {
    var s := a + [c] + rest;
    assert s[|a|] == c;
    assert forall k :: 0 <= k < |a| ==> s[k] == a[k];
  }

  /** In "a-rest" with no '-' in a, the text after the first '-' is rest. */
  lemma AfterDashOf(a: string, rest: string)
    requires '-' !in a
    ensures AfterDash(a + "-" + rest) == Some(rest)
    ensures MajorField(a + "-" + rest) == Some(a)
  {
    var s := a + "-" + rest;
    assert s == a + ['-'] + rest;
    IndexOfAfter(a, '-', rest);
    assert s[|a| + 1..] == rest;
    assert s[..|a|] == a;
  }

  /** For label "a-c-rest" with no '-' in a or c, the major candidate is c. */
  lemma MajorCandidateOf(a: string, c: string, rest: string)
    requires '-' !in a && '-' !in c
    ensures MajorCandidate(Some(a + "-" + c + "-" + rest)) == Some(c)
  {
    assert a + "-" + c + "-" + rest == a + "-" + (c + "-" + rest);
    AfterDashOf(a, c + "-" + rest);
    AfterDashOf(c, rest);
  }

  /** A label with at most one '-' has no major candidate. */
  lemma MajorCandidateOneDash(a: string, b: string)
    requires '-' !in a && '-' !in b
    ensures MajorCandidate(Some(a)) == None
    ensures MajorCandidate(Some(a + "-" + b)) == None
  {
    AfterDashOf(a, b);
  }

  /** With two '-' in the label, the minor candidate is read from the text after the second. */
  lemma MinorCandidateAfterSecondDash(a: string, b: string, tail: string)
    requires '-' !in a && '-' !in b
    ensures MinorCandidate(Some(a + "-" + b + "-" + tail)) == MinorField(tail)
  {
    assert a + "-" + b + "-" + tail == a + "-" + (b + "-" + tail);
    AfterDashOf(a, b + "-" + tail);
    AfterDashOf(b, tail);
  }

  /** Label "a-b-c-rest" with no '-' in a, b or c: the minor candidate is c. */
  lemma MinorCandidateToDash(a: string, b: string, c: string, rest: string)
    requires '-' !in a && '-' !in b && '-' !in c
    ensures MinorCandidate(Some(a + "-" + b + "-" + c + "-" + rest)) == Some(c)
  {
    var tail := c + "-" + rest;
    assert a + "-" + b + "-" + c + "-" + rest == a + "-" + b + "-" + tail;
    MinorCandidateAfterSecondDash(a, b, tail);
    AfterDashOf(c, rest);
  }

  /** Label "a-b-c.rest" with no '-' after the first two and no '.' in c: the minor candidate is c. */
  lemma MinorCandidateToDot(a: string, b: string, c: string, rest: string)
    requires '-' !in a && '-' !in b && '-' !in c && '-' !in rest && '.' !in c
    ensures MinorCandidate(Some(a + "-" + b + "-" + c + "." + rest)) == Some(c)
  {
    var tail := c + "." + rest;
    assert a + "-" + b + "-" + c + "." + rest == a + "-" + b + "-" + tail;
    MinorCandidateAfterSecondDash(a, b, tail);
    assert tail == c + ['.'] + rest;
    assert '-' !in tail;
    IndexOfAfter(c, '.', rest);
    assert tail[..|c|] == c;
  }

  /** Label "a-b-c" with neither '-' nor '.' after the second '-': no minor candidate. */
  lemma MinorCandidateNeither(a: string, b: string, c: string)
    requires '-' !in a && '-' !in b && '-' !in c && '.' !in c
    ensures MinorCandidate(Some(a + "-" + b + "-" + c)) == None
  {
    MinorCandidateAfterSecondDash(a, b, c);
  }

  /** ExtractMajorVersion completes: no candidate, or one that parses to a valid Major. */
  predicate MajorAccepted(buildLabel: Option<string>)
  {
    var c := MajorCandidate(buildLabel);
    c.None? || (ParseInt(c.value).Some? && ParseInt(c.value).value > 0)
  }

  /** ExtractMinorVersion completes: no candidate, or one that parses to a valid Minor. */
  predicate MinorAccepted(buildLabel: Option<string>)
  {
    var c := MinorCandidate(buildLabel);
    c.None? || (ParseInt(c.value).Some? && ParseInt(c.value).value >= 0)
  }

  /** Convert.ToInt32 of the numeric label: 0 when unset, otherwise int.Parse. */
  function NumericLabel(env: Environment): Option<int>
  {
    var text := Variable(env, NumericLabelVariable);
    if text.None? then Some(0) else ParseInt(text.value)
  }

  /**
   * The version CruiseControlVersionExtraction.Load leaves, or None when it throws:
   * Major 1, Minor 0, the numeric label as build number, and the build date and time.
   */
  function CruiseControlUpdate(env: Environment, v: VersionData): Option<VersionData>
  {
    var buildLabel := Variable(env, LabelVariable);
    var number := NumericLabel(env);
    var date := VariableOrEmpty(env, BuildDateVariable);
    var time := VariableOrEmpty(env, BuildTimeVariable);
    if MajorAccepted(buildLabel) && MinorAccepted(buildLabel) && number.Some? && number.value >= 0 && date != "" && time != ""
    then Some(v.(major := 1, minor := 0, currentBuildNumber := number.value,
                 currentBuildDate := Some(date), currentBuildTime := Some(time)))
    else None
  }

  /** Whatever the label says, a completed CruiseControl load leaves Major 1 and Minor 0. */
  lemma CruiseControlResetsMajorMinor(env: Environment, v: VersionData)
    requires CruiseControlUpdate(env, v).Some?
    ensures CruiseControlUpdate(env, v).value.major == 1 && CruiseControlUpdate(env, v).value.minor == 0
  {
  }

  /** A completed load changes only Major, Minor, build number, date and time, and keeps the invariant. */
  lemma CruiseControlTouchesFiveFields(env: Environment, v: VersionData)
    requires Invariant(v) && CruiseControlUpdate(env, v).Some?
    ensures var w := CruiseControlUpdate(env, v).value;
            Invariant(w) &&
            w.companyName == v.companyName && w.copyrightStartYear == v.copyrightStartYear &&
            w.productName == v.productName && w.subversionRevision == v.subversionRevision &&
            w.trademark == v.trademark
  {
  }

  /** An unset build date or time makes the load throw: "" breaks the setter's precondition. */
  lemma CruiseControlNeedsDateAndTime(env: Environment, v: VersionData)
    requires BuildDateVariable !in env || BuildTimeVariable !in env
    ensures CruiseControlUpdate(env, v) == None
  {
  }

  /** An unset numeric label gives build number 0. */
  lemma CruiseControlUnsetNumericLabel(env: Environment)
    requires NumericLabelVariable !in env
    ensures NumericLabel(env) == Some(0)
  {
  }

  /** A major candidate that is not a number makes the load throw. */
  lemma CruiseControlRejectsNonNumericMajor(env: Environment, v: VersionData, a: string, c: string, rest: string)
    requires '-' !in a && '-' !in c && ParseInt(c).None?
    requires LabelVariable in env && env[LabelVariable] == a + "-" + c + "-" + rest
    ensures CruiseControlUpdate(env, v) == None
  {
    MajorCandidateOf(a, c, rest);
  }

  /**
   * ExtractMajorVersion: parse the candidate (MajorCandidate carries the label slicing) into
   * Major if there is one, then set Major to 1.
   */
  method ExtractMajorVersion(buildLabel: Option<string>, version: VersionProperties) returns (ok: bool)
    requires version.Valid()
    modifies version
    ensures version.Valid() && (old(version.StampsWellFormed()) ==> version.StampsWellFormed())
    ensures ok <==> MajorAccepted(buildLabel)
    ensures ok ==> version.Snapshot() == old(version.Snapshot()).(major := 1)
    ensures !ok ==> version.Snapshot() == old(version.Snapshot())
  {
    var candidate := MajorCandidate(buildLabel);
    if candidate.Some? {
      var parsed := ParseInt(candidate.value);
      if parsed.None? || parsed.value <= 0 {
        return false;
      }
      version.SetMajor(parsed.value);
    }
    version.SetMajor(1);
    return true;
  }

  /**
   * ExtractMinorVersion: parse the candidate (MinorCandidate carries the label slicing) into
   * Minor if there is one, then set Minor to 0.
   */
  method ExtractMinorVersion(buildLabel: Option<string>, version: VersionProperties) returns (ok: bool)
    requires version.Valid()
    modifies version
    ensures version.Valid() && (old(version.StampsWellFormed()) ==> version.StampsWellFormed())
    ensures ok <==> MinorAccepted(buildLabel)
    ensures ok ==> version.Snapshot() == old(version.Snapshot()).(minor := 0)
    ensures !ok ==> version.Snapshot() == old(version.Snapshot())
  {
    var candidate := MinorCandidate(buildLabel);
    if candidate.Some? {
      var parsed := ParseInt(candidate.value);
      if parsed.None? || parsed.value < 0 {
        return false;
      }
      version.SetMinor(parsed.value);
    }
    version.SetMinor(0);
    return true;
  }

  /** CruiseControlVersionExtraction.Load: Major, Minor, build number, date and time, in that order. */
  method CruiseControlLoad(env: Environment, version: VersionProperties) returns (ok: bool)
    requires version.Valid()
    modifies version
    ensures version.Valid() && (old(version.StampsWellFormed()) ==> version.StampsWellFormed())
    ensures ok <==> CruiseControlUpdate(env, old(version.Snapshot())).Some?
    ensures ok ==> version.Snapshot() == CruiseControlUpdate(env, old(version.Snapshot())).value
  {
    var buildLabel := Variable(env, LabelVariable);
    ok := ExtractMajorVersion(buildLabel, version);
    if !ok { return; }
    ok := ExtractMinorVersion(buildLabel, version);
    if !ok { return; }
    var number := NumericLabel(env);
    if number.None? || number.value < 0 { return false; }
    version.SetCurrentBuildNumber(number.value);
    var date := VariableOrEmpty(env, BuildDateVariable);
    if date == "" { return false; }
    version.SetCurrentBuildDate(date);
    var time := VariableOrEmpty(env, BuildTimeVariable);
    if time == "" { return false; }
    version.SetCurrentBuildTime(time);
  }

  /** TeamCity's build number: the numeric label if it parses (unset counts as ""), else 1. */
  function TeamCityBuildNumber(env: Environment): int
  {
    var parsed := ParseInt(VariableOrEmpty(env, NumericLabelVariable));
    if parsed.None? then 1 else parsed.value
  }

  /** The version TeamCityVersionExtraction.Load leaves, or None when the setter rejects the number. */
  function TeamCityUpdate(env: Environment, v: VersionData): Option<VersionData>
  {
    var n := TeamCityBuildNumber(env);
    if n >= 0 then Some(v.(currentBuildNumber := n)) else None
  }

  /** An unset or unparsable numeric label falls back to build number 1, which the setter accepts. */
  lemma TeamCityFallback(env: Environment, v: VersionData)
    requires NumericLabelVariable !in env || ParseInt(env[NumericLabelVariable]).None?
    ensures TeamCityBuildNumber(env) == 1
    ensures TeamCityUpdate(env, v) == Some(v.(currentBuildNumber := 1))
  {
  }

  /** A label that parses is stored as it is; a negative one makes the setter throw. */
  lemma TeamCityParsed(env: Environment, v: VersionData, n: int)
    requires NumericLabelVariable in env && ParseInt(env[NumericLabelVariable]) == Some(n)
    ensures n >= 0 ==> TeamCityUpdate(env, v) == Some(v.(currentBuildNumber := n))
    ensures n < 0 ==> TeamCityUpdate(env, v) == None
  {
  }

  /** TeamCityVersionExtraction.Load: only the build number changes. */
  method TeamCityLoad(env: Environment, version: VersionProperties) returns (ok: bool)
    requires version.Valid()
    modifies version
    ensures version.Valid() && (old(version.StampsWellFormed()) ==> version.StampsWellFormed())
    ensures ok <==> TeamCityUpdate(env, old(version.Snapshot())).Some?
    ensures ok ==> version.Snapshot() == TeamCityUpdate(env, old(version.Snapshot())).value
    ensures !ok ==> version.Snapshot() == old(version.Snapshot())
  {
    var environment := VariableOrEmpty(env, NumericLabelVariable);
    var buildNumber: int;
    var parsed := ParseInt(environment);
    if parsed.None? {
      buildNumber := 1;
    } else {
      buildNumber := parsed.value;
    }
    if buildNumber < 0 {
      return false;
    }
    version.SetCurrentBuildNumber(buildNumber);
    return true;
  }
}
