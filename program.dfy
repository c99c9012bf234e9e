/**
 * Program: the command-line entry point. It loads the version information (defaults, then
 * a CI server's environment, then command-line overrides), finds the root folder, and runs
 * the assembly-info updater on every directory of the post-order walk. The environment,
 * the clock, the current directory and the file system are parameters. Any exception,
 * including a setter's precondition failing, ends the run with exit code 1.
 */
module Program {
  import opened Wrappers
  import opened Text
  import opened Version
  import opened CommandLine
  import opened CiExtraction
  import opened FormatTraits
  import opened TagHelper
  import opened AssemblyInfoUpdater
  import opened FolderProcessor

  /** DateTime.Now as the program reads it: the default build date and time texts and the year. */
  datatype Clock = Clock(date: string, time: string, year: int)

  /** The formatted date and time are never empty. */
  predicate ClockWellFormed(clock: Clock)
  {
    clock.date != "" && clock.time != ""
  }

  const RootFolderParameter: string := "RootFolder"
  const WorkingDirectoryVariable: string := "CCNetWorkingDirectory"

  /**
   * GetRootFolder: a non-empty -RootFolder: value, else a non-empty CCNetWorkingDirectory,
   * else the current directory (which the operating system never reports as empty).
   */
  function GetRootFolder(args: seq<string>, env: Environment, currentDirectory: string): (r: string)
    requires currentDirectory != ""
    ensures r != ""
    ensures r == ValueOf(args, RootFolderParameter) || r == VariableOrEmpty(env, WorkingDirectoryVariable) || r == currentDirectory
  {
    var rootFolder := ValueOf(args, RootFolderParameter);
    if rootFolder != "" then rootFolder
    else
      var workingDirectory := VariableOrEmpty(env, WorkingDirectoryVariable);
      if workingDirectory != "" then workingDirectory
      else currentDirectory
  }

  /** A -RootFolder: value given on the command line wins over the environment. */
  lemma RootFolderArgumentWins(args: seq<string>, env: Environment, currentDirectory: string, i: nat, folder: string)
    requires currentDirectory != "" && folder != ""
    requires i < |args| && args[i] == ValuePrefix(RootFolderParameter) + folder
    requires forall k :: 0 <= k < i ==> !StartsWithIgnoreCase(args[k], ValuePrefix(RootFolderParameter))
    ensures GetRootFolder(args, env, currentDirectory) == folder
  {
    ValueOfFirstMatch(args, RootFolderParameter, i, folder);
  }

  /** Without a -RootFolder: argument, a set working directory variable wins over the current directory. */
  lemma WorkingDirectoryBeforeCurrent(args: seq<string>, env: Environment, currentDirectory: string)
    requires currentDirectory != ""
    requires forall k :: 0 <= k < |args| ==> !StartsWithIgnoreCase(args[k], ValuePrefix(RootFolderParameter))
    requires WorkingDirectoryVariable in env && env[WorkingDirectoryVariable] != ""
    ensures GetRootFolder(args, env, currentDirectory) == env[WorkingDirectoryVariable]
  {
    ValueOfNoMatch(args, RootFolderParameter);
  }

  /** With neither source, the current directory is used. */
  lemma CurrentDirectoryLast(args: seq<string>, env: Environment, currentDirectory: string)
    requires currentDirectory != ""
    requires forall k :: 0 <= k < |args| ==> !StartsWithIgnoreCase(args[k], ValuePrefix(RootFolderParameter))
    requires WorkingDirectoryVariable !in env
    ensures GetRootFolder(args, env, currentDirectory) == currentDirectory
  {
    ValueOfNoMatch(args, RootFolderParameter);
  }

  /** The values LoadDefaultVersionProperties stores: version 1.0.0.1 of Twaddle Software's Build Utilities. */
  function Defaults(clock: Clock): (v: VersionData)
    requires ClockWellFormed(clock)
    ensures Invariant(v)
    ensures v.major == 1 && v.minor == 0 && v.subversionRevision == 0 && v.currentBuildNumber == 1
    ensures v.companyName == "Twaddle Software" && v.copyrightStartYear == 1997
    ensures v.productName == "Build Utilities" && v.trademark == ""
    ensures v.currentBuildDate == Some(clock.date) && v.currentBuildTime == Some(clock.time)
  {
    VersionData(
      companyName := "Twaddle Software",
      copyrightStartYear := 1997,
      currentBuildDate := Some(clock.date),
      currentBuildNumber := 1,
      currentBuildTime := Some(clock.time),
      major := 1,
      minor := 0,
      productName := "Build Utilities",
      subversionRevision := 0,
      trademark := "")
  }

  /** The defaults differ from a fresh object's field initialisers in build number and start year. */
  lemma DefaultsOverrideInitialisers(clock: Clock)
    requires ClockWellFormed(clock)
    ensures Defaults(clock).currentBuildNumber == Initial().currentBuildNumber + 1
    ensures Defaults(clock).copyrightStartYear == Initial().copyrightStartYear + 7
    ensures Defaults(clock).companyName == Initial().companyName && Defaults(clock).productName == Initial().productName
  {
  }

  /** LoadDefaultVersionProperties: a new object with every property set through its setter. */
  method LoadDefaultVersionProperties(clock: Clock) returns (version: VersionProperties)
    requires ClockWellFormed(clock)
    ensures fresh(version) && version.Valid() && version.StampsWellFormed()
    ensures version.Snapshot() == Defaults(clock)
  {
    version := new VersionProperties();
    version.SetMajor(1);
    version.SetMinor(0);
    version.SetSubversionRevision(0);
    version.SetCurrentBuildNumber(1);
    version.SetCompanyName("Twaddle Software");
    version.SetCopyrightStartYear(1997);
    version.SetProductName("Build Utilities");
    version.SetTrademark("");
    version.SetCurrentBuildDate(clock.date);
    version.SetCurrentBuildTime(clock.time);
  }

  const CruiseControlParameter: string := "UseCruiseControl"
  const TeamCityParameter: string := "UseTeamCity"

  /**
   * The CI step: CruiseControl if asked for, else TeamCity if asked for, else nothing. None
   * when a HasParameter call it makes fails, or when the chosen server's values are rejected.
   */
  function CiStep(args: seq<string>, env: Environment, v: VersionData): Option<VersionData>
  {
    match HasParameter(args, CruiseControlParameter)
    case None => None
    case Some(useCruiseControl) =>
      if useCruiseControl then CruiseControlUpdate(env, v)
      else
        match HasParameter(args, TeamCityParameter)
        case None => None
        case Some(useTeamCity) => if useTeamCity then TeamCityUpdate(env, v) else Some(v)
  }

  const CompanyNameParameter: string := "CompanyName"
  const ProductNameParameter: string := "ProductName"
  const TrademarkParameter: string := "Trademark"
  const StartYearParameter: string := "CopyrightStartYear"

  /** -CompanyName: stores its value; "" fails the setter. */
  function OverrideCompany(args: seq<string>, v: VersionData): (r: Option<VersionData>)
    ensures r.Some? ==> r.value.(companyName := v.companyName) == v
    ensures Invariant(v) && r.Some? ==> Invariant(r.value)
  {
    match HasParameter(args, CompanyNameParameter)
    case None => None
    case Some(present) =>
      if !present then Some(v)
      else
        var value := ValueOf(args, CompanyNameParameter);
        if value == "" then None else Some(v.(companyName := value))
  }

  /** -ProductName: stores its value; "" fails the setter. */
  function OverrideProduct(args: seq<string>, v: VersionData): (r: Option<VersionData>)
    ensures r.Some? ==> r.value.(productName := v.productName) == v
    ensures Invariant(v) && r.Some? ==> Invariant(r.value)
  {
    match HasParameter(args, ProductNameParameter)
    case None => None
    case Some(present) =>
      if !present then Some(v)
      else
        var value := ValueOf(args, ProductNameParameter);
        if value == "" then None else Some(v.(productName := value))
  }

  /** -Trademark: stores its value, "" included. */
  function OverrideTrademark(args: seq<string>, v: VersionData): (r: Option<VersionData>)
    ensures r.Some? ==> r.value.(trademark := v.trademark) == v
    ensures Invariant(v) && r.Some? ==> Invariant(r.value)
  {
    match HasParameter(args, TrademarkParameter)
    case None => None
    case Some(present) => if present then Some(v.(trademark := ValueOf(args, TrademarkParameter))) else Some(v)
  }

  /** -CopyrightStartYear: stored only if it parses; a year before 1990 fails the setter. */
  function OverrideStartYear(args: seq<string>, v: VersionData): (r: Option<VersionData>)
    ensures r.Some? ==> r.value.(copyrightStartYear := v.copyrightStartYear) == v
    ensures Invariant(v) && r.Some? ==> Invariant(r.value)
  {
    match HasParameter(args, StartYearParameter)
    case None => None
    case Some(present) =>
      if !present then Some(v)
      else
        var startYear := ParseInt(ValueOf(args, StartYearParameter));
        if startYear.None? then Some(v)
        else if startYear.value < 1990 then None
        else Some(v.(copyrightStartYear := startYear.value))
  }

  /** The command-line overrides of company, product, trademark and start year, in that order. */
  function ApplyOverrides(args: seq<string>, v: VersionData): Option<VersionData>
  {
    var company := OverrideCompany(args, v);
    if company.None? then None
    else
      var product := OverrideProduct(args, company.value);
      if product.None? then None
      else
        var trademark := OverrideTrademark(args, product.value);
        if trademark.None? then None
        else OverrideStartYear(args, trademark.value)
  }

  /** What LoadVersionInformation returns, or None when it throws. */
  function LoadedVersion(args: seq<string>, env: Environment, clock: Clock): Option<VersionData>
    requires ClockWellFormed(clock)
  {
    match CiStep(args, env, Defaults(clock))
    case None => None
    case Some(v) => ApplyOverrides(args, v)
  }

  /** A loaded version satisfies the object invariant. */
  lemma LoadedVersionValid(args: seq<string>, env: Environment, clock: Clock)
    requires ClockWellFormed(clock) && LoadedVersion(args, env, clock).Some?
    ensures Invariant(LoadedVersion(args, env, clock).value)
  {
    if HasParameter(args, CruiseControlParameter) == Some(true) {
      CruiseControlTouchesFiveFields(env, Defaults(clock));
    }
  }

  /** With no arguments the defaults are used as they are. */
  lemma NoArgumentsGiveDefaults(env: Environment, clock: Clock)
    requires ClockWellFormed(clock)
    ensures LoadedVersion([], env, clock) == Some(Defaults(clock))
  {
  }

  /** -UseCruiseControl wins over -UseTeamCity, which is then not even looked for. */
  lemma CruiseControlBeforeTeamCity(args: seq<string>, env: Environment, v: VersionData)
    requires HasParameter(args, CruiseControlParameter) == Some(true)
    ensures CiStep(args, env, v) == CruiseControlUpdate(env, v)
  {
  }

  /** A company name override is applied after the CI step, so it is what the loaded version holds. */
  lemma CompanyOverrideWins(args: seq<string>, env: Environment, clock: Clock)
    requires ClockWellFormed(clock) && HasParameter(args, CompanyNameParameter) == Some(true)
    requires LoadedVersion(args, env, clock).Some?
    ensures LoadedVersion(args, env, clock).value.companyName == ValueOf(args, CompanyNameParameter)
  {
  }

  /** A start year that does not parse leaves the year as it was. */
  lemma UnparsableStartYearIgnored(args: seq<string>, env: Environment, clock: Clock)
    requires ClockWellFormed(clock)
    requires ParseInt(ValueOf(args, StartYearParameter)).None?
    requires LoadedVersion(args, env, clock).Some?
    ensures LoadedVersion(args, env, clock).value.copyrightStartYear == 1997
  {
    if HasParameter(args, CruiseControlParameter) == Some(true) {
      CruiseControlTouchesFiveFields(env, Defaults(clock));
    }
  }

  /** A bare -CompanyName flag passes "" to the setter, which ends the run. */
  lemma BareCompanyFlagFails(env: Environment, clock: Clock)
    requires ClockWellFormed(clock)
    ensures LoadedVersion(["-CompanyName"], env, clock) == None
  {
    BareFlag("CompanyName");
    assert "-" + "CompanyName" == "-CompanyName";
    OnlyArgumentDefinesNothingElse("-CompanyName", CruiseControlParameter);
    OnlyArgumentDefinesNothingElse("-CompanyName", TeamCityParameter);
  }

  /** A lone argument whose second character is not the name's first, ignoring case, defines nothing. */
  lemma OnlyArgumentDefinesNothingElse(argument: string, name: string)
    requires name != "" && |argument| > 1 && Upper(argument[1]) != Upper(name[0])
    ensures HasParameter([argument], name) == Some(false)
  {
    assert ("-" + name)[1] == name[0] && ValuePrefix(name)[1] == name[0];
    DifferenceRulesOutPrefix(argument, ValuePrefix(name), 1);
    OtherArgumentsDoNotDefine([argument], name);
  }

  /** An empty first argument makes the very first HasParameter call, for -UseCruiseControl, throw. */
  lemma LeadingEmptyArgumentFails(args: seq<string>, env: Environment, clock: Clock)
    requires ClockWellFormed(clock) && |args| > 0 && args[0] == ""
    ensures LoadedVersion(args, env, clock) == None
  {
    EmptyArgumentFails(args, CruiseControlParameter, 0);
  }

  /**
   * An empty argument after arguments that define every parameter Program asks about is never
   * reached: with a valid CruiseControl environment the run loads every override.
   */
  lemma TrailingEmptyArgumentIgnored(env: Environment, clock: Clock)
    requires ClockWellFormed(clock) && CruiseControlUpdate(env, Defaults(clock)).Some?
    ensures var args := ["-UseCruiseControl", "-CompanyName:A", "-ProductName:B", "-Trademark:C",
                         "-CopyrightStartYear:2000", ""];
            LoadedVersion(args, env, clock) ==
              Some(CruiseControlUpdate(env, Defaults(clock)).value.(
                companyName := "A", productName := "B", trademark := "C", copyrightStartYear := 2000))
  {
    var args := ["-UseCruiseControl", "-CompanyName:A", "-ProductName:B", "-Trademark:C",
                 "-CopyrightStartYear:2000", ""];
    CruiseControlAt(args);
    CompanyAt(args);
    ProductAt(args);
    TrademarkAt(args);
    StartYearAt(args);
    YearTwoThousand();
    EveryOverrideLoads(args, env, clock);
  }

  lemma YearTwoThousand()
    ensures ParseInt("2000") == Some(2000)
  {
    assert NatToString(2000) == "2000";
    ParseIntOfIntToString(2000);
  }

  /**
   * When -UseCruiseControl and all four overrides are found, the loaded version is the
   * CruiseControl values with the four overrides on top.
   */
  lemma EveryOverrideLoads(args: seq<string>, env: Environment, clock: Clock)
    requires ClockWellFormed(clock) && CruiseControlUpdate(env, Defaults(clock)).Some?
    requires HasParameter(args, CruiseControlParameter) == Some(true)
    requires HasParameter(args, CompanyNameParameter) == Some(true) && ValueOf(args, CompanyNameParameter) != ""
    requires HasParameter(args, ProductNameParameter) == Some(true) && ValueOf(args, ProductNameParameter) != ""
    requires HasParameter(args, TrademarkParameter) == Some(true)
    requires HasParameter(args, StartYearParameter) == Some(true)
    requires ParseInt(ValueOf(args, StartYearParameter)).Some? && ParseInt(ValueOf(args, StartYearParameter)).value >= 1990
    ensures LoadedVersion(args, env, clock) ==
              Some(CruiseControlUpdate(env, Defaults(clock)).value.(
                companyName := ValueOf(args, CompanyNameParameter),
                productName := ValueOf(args, ProductNameParameter),
                trademark := ValueOf(args, TrademarkParameter),
                copyrightStartYear := ParseInt(ValueOf(args, StartYearParameter)).value))
  {
    var v := CruiseControlUpdate(env, Defaults(clock)).value;
    assert CiStep(args, env, Defaults(clock)) == Some(v);
    var company := v.(companyName := ValueOf(args, CompanyNameParameter));
    assert OverrideCompany(args, v) == Some(company);
    var product := company.(productName := ValueOf(args, ProductNameParameter));
    assert OverrideProduct(args, company) == Some(product);
    var trademark := product.(trademark := ValueOf(args, TrademarkParameter));
    assert OverrideTrademark(args, product) == Some(trademark);
    assert OverrideStartYear(args, trademark) ==
             Some(trademark.(copyrightStartYear := ParseInt(ValueOf(args, StartYearParameter)).value));
  }

  lemma CruiseControlAt(args: seq<string>)
    requires |args| > 0 && args[0] == "-UseCruiseControl"
    ensures HasParameter(args, CruiseControlParameter) == Some(true)
  {
    assert args[0] == "-" + CruiseControlParameter;
    assert Defines(args[0], CruiseControlParameter);
  }

  lemma CompanyAt(args: seq<string>)
    requires |args| > 1 && args[0] == "-UseCruiseControl" && args[1] == "-CompanyName:A"
    ensures HasParameter(args, CompanyNameParameter) == Some(true) && ValueOf(args, CompanyNameParameter) == "A"
  {
    assert args[1] == ValuePrefix(CompanyNameParameter) + "A";
    OverrideAt(args, CompanyNameParameter, 1, "A");
  }

  lemma ProductAt(args: seq<string>)
    requires |args| > 2 && args[0] == "-UseCruiseControl" && args[1] == "-CompanyName:A" && args[2] == "-ProductName:B"
    ensures HasParameter(args, ProductNameParameter) == Some(true) && ValueOf(args, ProductNameParameter) == "B"
  {
    assert args[2] == ValuePrefix(ProductNameParameter) + "B";
    OverrideAt(args, ProductNameParameter, 2, "B");
  }

  lemma TrademarkAt(args: seq<string>)
    requires |args| > 3 && args[0] == "-UseCruiseControl" && args[1] == "-CompanyName:A" && args[2] == "-ProductName:B"
    requires args[3] == "-Trademark:C"
    ensures HasParameter(args, TrademarkParameter) == Some(true) && ValueOf(args, TrademarkParameter) == "C"
  {
    assert args[3] == ValuePrefix(TrademarkParameter) + "C";
    OverrideAt(args, TrademarkParameter, 3, "C");
  }

  lemma StartYearAt(args: seq<string>)
    requires |args| > 4 && args[0] == "-UseCruiseControl" && args[1] == "-CompanyName:A" && args[2] == "-ProductName:B"
    requires args[3] == "-Trademark:C" && args[4] == "-CopyrightStartYear:2000"
    ensures HasParameter(args, StartYearParameter) == Some(true) && ValueOf(args, StartYearParameter) == "2000"
  {
    assert args[4] == ValuePrefix(StartYearParameter) + "2000";
    OverrideAt(args, StartYearParameter, 4, "2000");
  }

  /**
   * Argument `k` is "-Name:value" and no earlier argument is empty or starts with "-Name:"
   * (each differs from it at its second or fourth character): HasParameter finds the parameter
   * and GetValue returns `value`.
   */
  lemma OverrideAt(args: seq<string>, name: string, k: nat, value: string)
    requires |name| >= 3 && k < |args| && args[k] == ValuePrefix(name) + value
    requires forall j :: 0 <= j < k ==>
               |args[j]| > 3 && (Upper(args[j][1]) != Upper(name[0]) || Upper(args[j][3]) != Upper(name[2]))
    ensures HasParameter(args, name) == Some(true)
    ensures ValueOf(args, name) == value
  {
    PrefixStartsWithIgnoreCase(ValuePrefix(name), value);
    assert Defines(args[k], name);
    forall j | 0 <= j < k
      ensures !StartsWithIgnoreCase(args[j], ValuePrefix(name))
    {
      var p := ValuePrefix(name);
      assert p[1] == name[0] && p[3] == name[2];
      if Upper(args[j][1]) != Upper(name[0]) {
        DifferenceRulesOutPrefix(args[j], p, 1);
      } else {
        DifferenceRulesOutPrefix(args[j], p, 3);
      }
    }
    ValueOfFirstMatch(args, name, k, value);
  }

  /** LoadVersionInformation: defaults, CI extraction, then the overrides in source order. */
  method LoadVersionInformation(args: seq<string>, env: Environment, clock: Clock)
    returns (version: VersionProperties, ok: bool)
    requires ClockWellFormed(clock)
    ensures fresh(version) && version.Valid()
    ensures ok <==> LoadedVersion(args, env, clock).Some?
    ensures ok ==> version.Snapshot() == LoadedVersion(args, env, clock).value
  {
    version := LoadDefaultVersionProperties(clock);
    ok := LoadFromBuildServer(args, env, version);
    if !ok {
      return;
    }
    ok := LoadOverrides(args, version);
  }

  /** The CI step of LoadVersionInformation, on the object. */
  method LoadFromBuildServer(args: seq<string>, env: Environment, version: VersionProperties) returns (ok: bool)
    requires version.Valid()
    modifies version
    ensures version.Valid()
    ensures ok <==> CiStep(args, env, old(version.Snapshot())).Some?
    ensures ok ==> version.Snapshot() == CiStep(args, env, old(version.Snapshot())).value
  {
    var useCruiseControl := HasParameter(args, CruiseControlParameter);
    if useCruiseControl.None? {
      return false;
    }
    if useCruiseControl.value {
      ok := CruiseControlLoad(env, version);
      return;
    }
    var useTeamCity := HasParameter(args, TeamCityParameter);
    if useTeamCity.None? {
      return false;
    }
    if useTeamCity.value {
      ok := TeamCityLoad(env, version);
    } else {
      ok := true;
    }
  }

  /** The command-line overrides of LoadVersionInformation, on the object. */
  method LoadOverrides(args: seq<string>, version: VersionProperties) returns (ok: bool)
    requires version.Valid()
    modifies version
    ensures version.Valid()
    ensures ok <==> ApplyOverrides(args, old(version.Snapshot())).Some?
    ensures ok ==> version.Snapshot() == ApplyOverrides(args, old(version.Snapshot())).value
  {
    ok := LoadCompanyName(args, version);
    if !ok { return; }
    ok := LoadProductName(args, version);
    if !ok { return; }
    ok := LoadTrademark(args, version);
    if !ok { return; }
    ok := LoadStartYear(args, version);
  }

  method LoadCompanyName(args: seq<string>, version: VersionProperties) returns (ok: bool)
    requires version.Valid()
    modifies version
    ensures version.Valid()
    ensures ok <==> OverrideCompany(args, old(version.Snapshot())).Some?
    ensures ok ==> version.Snapshot() == OverrideCompany(args, old(version.Snapshot())).value
  {
    var present := HasParameter(args, CompanyNameParameter);
    if present.None? { return false; }
    if present.value {
      var companyName := GetValue(args, CompanyNameParameter);
      if companyName == "" { return false; }
      version.SetCompanyName(companyName);
    }
    return true;
  }

  method LoadProductName(args: seq<string>, version: VersionProperties) returns (ok: bool)
    requires version.Valid()
    modifies version
    ensures version.Valid()
    ensures ok <==> OverrideProduct(args, old(version.Snapshot())).Some?
    ensures ok ==> version.Snapshot() == OverrideProduct(args, old(version.Snapshot())).value
  {
    var present := HasParameter(args, ProductNameParameter);
    if present.None? { return false; }
    if present.value {
      var productName := GetValue(args, ProductNameParameter);
      if productName == "" { return false; }
      version.SetProductName(productName);
    }
    return true;
  }

  method LoadTrademark(args: seq<string>, version: VersionProperties) returns (ok: bool)
    requires version.Valid()
    modifies version
    ensures version.Valid()
    ensures ok <==> OverrideTrademark(args, old(version.Snapshot())).Some?
    ensures ok ==> version.Snapshot() == OverrideTrademark(args, old(version.Snapshot())).value
  {
    var present := HasParameter(args, TrademarkParameter);
    if present.None? { return false; }
    if present.value {
      var trademark := GetValue(args, TrademarkParameter);
      version.SetTrademark(trademark);
    }
    return true;
  }

  method LoadStartYear(args: seq<string>, version: VersionProperties) returns (ok: bool)
    requires version.Valid()
    modifies version
    ensures version.Valid()
    ensures ok <==> OverrideStartYear(args, old(version.Snapshot())).Some?
    ensures ok ==> version.Snapshot() == OverrideStartYear(args, old(version.Snapshot())).value
  {
    var present := HasParameter(args, StartYearParameter);
    if present.None? { return false; }
    if present.value {
      var startYearText := GetValue(args, StartYearParameter);
      var startYear := ParseInt(startYearText);
      if startYear.Some? {
        if startYear.value < 1990 { return false; }
        version.SetCopyrightStartYear(startYear.value);
      }
    }
    return true;
  }

  /** The directories' files after the callback has run on each path of `calls`, in order. */
  function AfterWalk(u: Updater, calls: seq<Path>, v: VersionData, year: int, files: map<Path, seq<FileEntry>>)
    : (r: map<Path, seq<FileEntry>>)
    ensures r.Keys == files.Keys
  {
    if calls == [] then files
    else
      var before := AfterWalk(u, calls[..|calls| - 1], v, year, files);
      var p := calls[|calls| - 1];
      if p in before then before[p := AfterFormats(u, u.formatters, v, year, before[p])] else before
  }

  /** A directory the walk does not reach (an excluded subtree, say) keeps its files. */
  lemma {:induction false} UnvisitedUnchanged(u: Updater, calls: seq<Path>, v: VersionData, year: int,
                                              files: map<Path, seq<FileEntry>>, p: Path)
    requires p in files && p !in calls
    ensures AfterWalk(u, calls, v, year, files)[p] == files[p]
  {
    if calls != [] {
      UnvisitedUnchanged(u, calls[..|calls| - 1], v, year, files, p);
    }
  }

  /** A directory the walk reaches once has its files processed once. */
  lemma {:induction false} VisitedOnceProcessed(u: Updater, calls: seq<Path>, v: VersionData, year: int,
                                                files: map<Path, seq<FileEntry>>, p: Path)
    requires p in files && NoRepeats(calls) && p in calls
    ensures AfterWalk(u, calls, v, year, files)[p] == AfterFormats(u, u.formatters, v, year, files[p])
  {
    var front := calls[..|calls| - 1];
    if calls[|calls| - 1] == p {
      forall k | 0 <= k < |front|
        ensures front[k] != p
      {
        assert front[k] == calls[k];
      }
      UnvisitedUnchanged(u, front, v, year, files, p);
    } else {
      assert p in front by {
        var k :| 0 <= k < |calls| && calls[k] == p;
        assert front[k] == p;
      }
      assert NoRepeats(front) by {
        forall i, j | 0 <= i < j < |front| ensures front[i] != front[j] {
          assert front[i] == calls[i] && front[j] == calls[j];
        }
      }
      VisitedOnceProcessed(u, front, v, year, files, p);
    }
  }

  /** The callback of ProcessFilesInFolder, invoked on each directory of the walk in turn. */
  method ProcessWalk(u: Updater, calls: seq<Path>, v: VersionData, year: int, files: map<Path, seq<FileEntry>>)
    returns (newFiles: map<Path, seq<FileEntry>>)
    ensures newFiles == AfterWalk(u, calls, v, year, files)
  {
    newFiles := files;
    for i := 0 to |calls|
      invariant newFiles == AfterWalk(u, calls[..i], v, year, files)
    {
      assert calls[..i + 1][..i] == calls[..i];
      var directory := calls[i];
      if directory in newFiles {
        var processed := ProcessFolderContents(u, newFiles[directory], v, year);
        newFiles := newFiles[directory := processed];
      }
    }
    assert calls[..|calls|] == calls;
  }

  /** The updater Program.Main constructs: the AssemblyTags catalog and the C# format. */
  function ProgramUpdater(): Updater
  {
    Updater(Entries(AssemblyTagsMethods), [CSharp()])
  }

  /** The root directory tree, when the root folder exists. */
  function RootDirectory(folders: map<string, Dir>, rootFolder: string): Option<Dir>
  {
    if rootFolder in folders then Some(folders[rootFolder]) else None
  }

  /** What a successful run leaves in the file system. */
  function RunResult(args: seq<string>, env: Environment, clock: Clock, currentDirectory: string,
                      folders: map<string, Dir>, files: map<Path, seq<FileEntry>>): map<Path, seq<FileEntry>>
    requires ClockWellFormed(clock) && currentDirectory != "" && LoadedVersion(args, env, clock).Some?
  {
    var calls := ProcessFilesInFolder(RootDirectory(folders, GetRootFolder(args, env, currentDirectory)));
    AfterWalk(ProgramUpdater(), calls, LoadedVersion(args, env, clock).value, clock.year, files)
  }

  /**
   * Run (Program.Main): exit code 0 after the walk, 1 when loading the version information throws (and
   * then no file is touched). The updater's construction cannot fail here.
   */
  method Run(args: seq<string>, env: Environment, clock: Clock, currentDirectory: string,
              folders: map<string, Dir>, files: map<Path, seq<FileEntry>>)
    returns (exitCode: int, newFiles: map<Path, seq<FileEntry>>)
    requires ClockWellFormed(clock) && currentDirectory != ""
    ensures exitCode == 0 || exitCode == 1
    ensures exitCode == 0 <==> LoadedVersion(args, env, clock).Some?
    ensures exitCode == 1 ==> newFiles == files
    ensures exitCode == 0 ==> newFiles == RunResult(args, env, clock, currentDirectory, folders, files)
  {
    var version, ok := LoadVersionInformation(args, env, clock);
    if !ok {
      return 1, files;
    }
    var rootFolder := GetRootFolder(args, env, currentDirectory);
    CatalogComplete();
    OnlyCSharpFormat();
    var updater := NewUpdater(AssemblyTagsMethods, ExecutingAssemblyTypes());
    assert updater == Success(ProgramUpdater());
    var u := updater.value;
    var v := version.Snapshot();
    var calls := ProcessFilesInFolder(RootDirectory(folders, rootFolder));
    newFiles := ProcessWalk(u, calls, v, clock.year, files);
    return 0, newFiles;
  }
}
