/**
 * ProjectHelpers (BuildEnvironmentTests): the checks the settings tests run over every project
 * file. HasPropertyGroupSetting counts the property groups whose setting differs from the
 * expected value, where a group without the setting inherits it from the unconditioned
 * ("global") group; HasProjectImportReferece counts the C# projects that import none of the
 * given targets and are not exempted. The XML of each project is given already parsed.
 */
module ProjectHelpers {
  import opened Wrappers
  import opened Text

  /** One PropertyGroup: its trimmed-or-not Condition attribute ("" when absent) and the inner text of each child element. */
  datatype PropertyGroup = PropertyGroup(condition: string, elements: map<string, string>)

  /**
   * One loaded project file: its path, the PropertyGroup elements under Project (None when
   * the query yields no node list) and the Project attribute of each Import element.
   */
  datatype ProjectDocument = ProjectDocument(path: string, groups: Option<seq<PropertyGroup>>, imports: seq<string>)

  /** FindGlobalSettingsPropertyGroup: the first group whose trimmed Condition is empty, if any. */
  function FindGlobalSettingsPropertyGroup(groups: seq<PropertyGroup>): (r: Option<nat>)
    ensures r.Some? ==> r.value < |groups|
  {
    if groups == [] then None
    else if Trim(groups[0].condition) == "" then Some(0)
    else
      match FindGlobalSettingsPropertyGroup(groups[1..])
      case None => None
      case Some(j) => Some(j + 1)
  }

  /** The global group is the first whose trimmed Condition is empty; without one, no Condition trims to empty. */
  lemma {:induction false} GlobalGroupIsFirstUnconditioned(groups: seq<PropertyGroup>)
    ensures var r := FindGlobalSettingsPropertyGroup(groups);
            && (r.Some? ==> Trim(groups[r.value].condition) == "")
            && (r.Some? ==> forall j :: 0 <= j < r.value ==> Trim(groups[j].condition) != "")
            && (r.None? ==> forall j :: 0 <= j < |groups| ==> Trim(groups[j].condition) != "")
  {
    if groups != [] && Trim(groups[0].condition) != "" {
      GlobalGroupIsFirstUnconditioned(groups[1..]);
      var r := FindGlobalSettingsPropertyGroup(groups[1..]);
      forall j | 0 <= j < |groups| && (r.None? || j <= r.value) && j > 0
        ensures groups[j] == groups[1..][j - 1]
      {
      }
    }
  }

  /** The global group is the unconditioned one: a group is global-like exactly when its Condition is blank. */
  lemma GlobalGroupIsUnconditioned(groups: seq<PropertyGroup>)
    requires FindGlobalSettingsPropertyGroup(groups).Some?
    ensures IsBlank(groups[FindGlobalSettingsPropertyGroup(groups).value].condition)
  {
    GlobalGroupIsFirstUnconditioned(groups);
    TrimEmptyIffBlank(groups[FindGlobalSettingsPropertyGroup(groups).value].condition);
  }

  /** `bool.ToString()`. */
  function BoolText(b: bool): (s: string)
    ensures |s| == (if b then 4 else 5)
  {
    if b then "True" else "False"
  }

  /** An element's text holds the expected value: it equals expectedValue.ToString(), ignoring case. */
  predicate ElementMatches(text: string, expectedValue: bool)
  {
    EqualsIgnoreCase(text, BoolText(expectedValue))
  }

  /** Only "True" and "False", in any letter case, can match; the two never match the same text. */
  lemma OnlyBooleanTextMatches(text: string, expectedValue: bool)
    ensures ElementMatches(text, expectedValue) ==> EqualsIgnoreCase(text, "True") || EqualsIgnoreCase(text, "False")
    ensures ElementMatches(text, true) ==> !ElementMatches(text, false)
  {
  }

  /** "1" never counts as the expected value; "TRUE" and "false" do. */
  lemma MatchExamples()
    ensures !ElementMatches("1", true) && !ElementMatches("1", false)
    ensures ElementMatches("TRUE", true) && ElementMatches("false", false)
    ensures !ElementMatches("yes", true)
  {
    assert Upper("TRUE"[1]) == Upper("True"[1]);
    assert Upper("TRUE"[2]) == Upper("True"[2]);
    assert Upper("TRUE"[3]) == Upper("True"[3]);
    assert Upper("false"[0]) == Upper("False"[0]);
  }

  /** The trimmed Condition of the global group, when there is one. */
  function GlobalCondition(groups: seq<PropertyGroup>): Option<string>
  {
    match FindGlobalSettingsPropertyGroup(groups)
    case Some(g) => Some(Trim(groups[g].condition))
    case None => None
  }

  /** The default every group starts from: the global group's own comparison when it has the element. */
  function EffectiveDefault(settingName: string, expectedValue: bool, defaultValue: bool, groups: seq<PropertyGroup>): bool
  {
    match FindGlobalSettingsPropertyGroup(groups)
    case Some(g) =>
      if settingName in groups[g].elements then ElementMatches(groups[g].elements[settingName], expectedValue)
      else defaultValue
    case None => defaultValue
  }

  /** A group is skipped when a global group exists and the two trimmed Conditions are equal. */
  predicate Skipped(globalCondition: Option<string>, group: PropertyGroup)
  {
    globalCondition.Some? && Trim(group.condition) == globalCondition.value
  }

  /** With a global group, every group with a blank Condition is skipped, not only the first; without one, none is. */
  lemma SkippedIffUnconditioned(groups: seq<PropertyGroup>, group: PropertyGroup)
    ensures FindGlobalSettingsPropertyGroup(groups).Some? ==>
              (Skipped(GlobalCondition(groups), group) <==> IsBlank(group.condition))
    ensures FindGlobalSettingsPropertyGroup(groups).None? ==> !Skipped(GlobalCondition(groups), group)
  {
    GlobalGroupIsFirstUnconditioned(groups);
    TrimEmptyIffBlank(group.condition);
  }

  /** A checked group's setting: its own element's comparison, else the effective default. */
  function GroupSetting(settingName: string, expectedValue: bool, defaultSetting: bool, group: PropertyGroup): bool
  {
    if settingName in group.elements then ElementMatches(group.elements[settingName], expectedValue)
    else defaultSetting
  }

  /**
   * A group without the element inherits the global group's value: with "True" set globally,
   * a conditioned group that is silent passes even when the fallback default is false.
   */
  lemma DefaultInherited(settingName: string, groups: seq<PropertyGroup>, group: PropertyGroup)
    requires FindGlobalSettingsPropertyGroup(groups).Some?
    requires var g := FindGlobalSettingsPropertyGroup(groups).value;
             settingName in groups[g].elements && groups[g].elements[settingName] == "True"
    requires settingName !in group.elements
    ensures GroupSetting(settingName, true, EffectiveDefault(settingName, true, false, groups), group)
  {
  }

  /** The group is checked and its setting is not the expected value: one failure. */
  predicate GroupFails(settingName: string, expectedValue: bool, globalCondition: Option<string>, defaultSetting: bool,
                       group: PropertyGroup)
  {
    !Skipped(globalCondition, group) && !GroupSetting(settingName, expectedValue, defaultSetting, group)
  }

  /** The failures among the first `count` groups of one project. */
  function FailingGroups(settingName: string, expectedValue: bool, globalCondition: Option<string>, defaultSetting: bool,
                         groups: seq<PropertyGroup>, count: nat): nat
    requires count <= |groups|
  {
    if count == 0 then 0
    else FailingGroups(settingName, expectedValue, globalCondition, defaultSetting, groups, count - 1)
         + (if GroupFails(settingName, expectedValue, globalCondition, defaultSetting, groups[count - 1]) then 1 else 0)
  }

  /** Each group adds at most one failure, and none are added exactly when no group fails. */
  lemma {:induction false} FailingGroupsCounts(settingName: string, expectedValue: bool, globalCondition: Option<string>,
                                               defaultSetting: bool, groups: seq<PropertyGroup>, count: nat)
    requires count <= |groups|
    ensures FailingGroups(settingName, expectedValue, globalCondition, defaultSetting, groups, count) <= count
    ensures FailingGroups(settingName, expectedValue, globalCondition, defaultSetting, groups, count) == 0
            <==> forall j :: 0 <= j < count ==> !GroupFails(settingName, expectedValue, globalCondition, defaultSetting, groups[j])
  {
    if count > 0 {
      FailingGroupsCounts(settingName, expectedValue, globalCondition, defaultSetting, groups, count - 1);
    }
  }

  /** A project's failures: one when it has no property-group list, else its failing groups. */
  function ProjectFailures(settingName: string, expectedValue: bool, defaultValue: bool, project: ProjectDocument): nat
  {
    match project.groups
    case None => 1
    case Some(groups) =>
      FailingGroups(settingName, expectedValue, GlobalCondition(groups),
                    EffectiveDefault(settingName, expectedValue, defaultValue, groups), groups, |groups|)
  }

  /** The failures of the first `count` projects. */
  function TotalFailures(settingName: string, expectedValue: bool, defaultValue: bool, projects: seq<ProjectDocument>,
                         count: nat): nat
    requires count <= |projects|
  {
    if count == 0 then 0
    else TotalFailures(settingName, expectedValue, defaultValue, projects, count - 1)
         + ProjectFailures(settingName, expectedValue, defaultValue, projects[count - 1])
  }

  /** A project conforms when it has property groups and none of its checked groups fails. */
  predicate Conforms(settingName: string, expectedValue: bool, defaultValue: bool, project: ProjectDocument)
  {
    match project.groups
    case None => false
    case Some(groups) =>
      forall j :: 0 <= j < |groups| ==>
        !GroupFails(settingName, expectedValue, GlobalCondition(groups),
                    EffectiveDefault(settingName, expectedValue, defaultValue, groups), groups[j])
  }

  /** A project adds no failures exactly when it conforms. */
  lemma ProjectConformsIff(settingName: string, expectedValue: bool, defaultValue: bool, project: ProjectDocument)
    ensures ProjectFailures(settingName, expectedValue, defaultValue, project) == 0
            <==> Conforms(settingName, expectedValue, defaultValue, project)
  {
    match project.groups {
      case None =>
      case Some(groups) =>
        FailingGroupsCounts(settingName, expectedValue, GlobalCondition(groups),
                            EffectiveDefault(settingName, expectedValue, defaultValue, groups), groups, |groups|);
    }
  }

  /** The test passes (no failures) exactly when every project conforms. */
  lemma {:induction false} NoFailuresIffAllConform(settingName: string, expectedValue: bool, defaultValue: bool,
                                                   projects: seq<ProjectDocument>, count: nat)
    requires count <= |projects|
    ensures TotalFailures(settingName, expectedValue, defaultValue, projects, count) == 0
            <==> forall p :: 0 <= p < count ==> Conforms(settingName, expectedValue, defaultValue, projects[p])
  {
    if count > 0 {
      NoFailuresIffAllConform(settingName, expectedValue, defaultValue, projects, count - 1);
      ProjectConformsIff(settingName, expectedValue, defaultValue, projects[count - 1]);
    }
  }

  /**
   * HasPropertyGroupSetting: for each project, count every checked group whose setting is not
   * the expected value, and count a project without a property-group list once. The test
   * passes when the count is 0.
   */
  method HasPropertyGroupSetting(settingName: string, expectedValue: bool, defaultValue: bool,
                                 projects: seq<ProjectDocument>)
    returns (failures: nat, passed: bool)
    requires settingName != ""
    ensures failures == TotalFailures(settingName, expectedValue, defaultValue, projects, |projects|)
    ensures passed <==> forall p :: 0 <= p < |projects| ==> Conforms(settingName, expectedValue, defaultValue, projects[p])
  {
    failures := 0;
    var p := 0;
    while p < |projects|
      invariant p <= |projects|
      invariant failures == TotalFailures(settingName, expectedValue, defaultValue, projects, p)
    {
      var projectFailures := CountProjectFailures(settingName, expectedValue, defaultValue, projects[p]);
      failures := failures + projectFailures;
      p := p + 1;
    }
    NoFailuresIffAllConform(settingName, expectedValue, defaultValue, projects, |projects|);
    passed := failures == 0;
  }

  /**
   * The body of HasPropertyGroupSetting's loop for one project: find the global group and the
   * effective default, then walk the groups, skipping those with the global group's Condition.
   */
  method CountProjectFailures(settingName: string, expectedValue: bool, defaultValue: bool, project: ProjectDocument)
    returns (failures: nat)
    ensures failures == ProjectFailures(settingName, expectedValue, defaultValue, project)
  {
    match project.groups {
      case None =>
        failures := 1;
      case Some(nodes) =>
        var elementGlobalSettings := FindGlobalSettingsPropertyGroup(nodes);
        var defaultSetting := defaultValue;
        var globalCondition := None;
        if elementGlobalSettings.Some? {
          var global := nodes[elementGlobalSettings.value];
          globalCondition := Some(Trim(global.condition));
          if settingName in global.elements {
            defaultSetting := ElementMatches(global.elements[settingName], expectedValue);
          }
        }
        assert globalCondition == GlobalCondition(nodes);
        assert defaultSetting == EffectiveDefault(settingName, expectedValue, defaultValue, nodes);
        failures := CountFailingGroups(settingName, expectedValue, globalCondition, defaultSetting, nodes);
    }
  }

  /** The loop over one project's groups: skip those with the global Condition, count the rest that fail. */
  method CountFailingGroups(settingName: string, expectedValue: bool, globalCondition: Option<string>,
                            defaultSetting: bool, nodes: seq<PropertyGroup>)
    returns (failures: nat)
    ensures failures == FailingGroups(settingName, expectedValue, globalCondition, defaultSetting, nodes, |nodes|)
  {
    failures := 0;
    var n := 0;
    while n < |nodes|
      invariant n <= |nodes|
      invariant failures == FailingGroups(settingName, expectedValue, globalCondition, defaultSetting, nodes, n)
    {
      var element := nodes[n];
      if !(globalCondition.Some? && Trim(element.condition) == globalCondition.value) {
        var setting := defaultSetting;
        if settingName in element.elements {
          setting := ElementMatches(element.elements[settingName], expectedValue);
        }
        if !setting {
          failures := failures + 1;
        }
      }
      n := n + 1;
    }
  }

  /** HasProjectReference: some reference is the Project attribute of one of the Import elements. */
  function HasProjectReference(imports: seq<string>, references: seq<string>): (found: bool)
    ensures found <==> exists i :: 0 <= i < |references| && references[i] in imports
  {
    if references == [] then false
    else if references[0] in imports then true
    else
      var found := HasProjectReference(imports, references[1..]);
      assert found ==> exists i :: 0 <= i < |references| && references[i] in imports by {
        if found {
          var i :| 0 <= i < |references[1..]| && references[1..][i] in imports;
          assert references[i + 1] in imports;
        }
      }
      found
  }

  /** A path separator: '\' or '/'. */
  predicate IsSeparator(c: char)
  {
    c == '\\' || c == '/'
  }

  /** Path.GetFileName: the part after the last separator. */
  function FileName(path: string): string
  {
    if path == [] || IsSeparator(path[|path| - 1]) then []
    else FileName(path[..|path| - 1]) + [path[|path| - 1]]
  }

  /** The file name is the path's last component: a suffix free of separators, preceded by one or by nothing. */
  lemma {:induction false} FileNameIsLastComponent(path: string)
    ensures var r := FileName(path);
            && |r| <= |path| && r == path[|path| - |r|..]
            && (forall k :: 0 <= k < |r| ==> !IsSeparator(r[k]))
            && (|r| < |path| ==> IsSeparator(path[|path| - |r| - 1]))
  {
    if path != [] && !IsSeparator(path[|path| - 1]) {
      var front := path[..|path| - 1];
      var c := path[|path| - 1];
      FileNameIsLastComponent(front);
      var r := FileName(front);
      var r' := r + [c];
      assert FileName(path) == r';
      assert path == front + [c];
      var start := |front| - |r|;
      assert path[start..] == front[start..] + [c];
      forall k | 0 <= k < |r'| ensures !IsSeparator(r'[k]) {
        if k < |r| { assert r'[k] == r[k]; }
      }
      if |r'| < |path| {
        assert path[start - 1] == front[start - 1];
      }
    }
  }

  /** After a separator, a separator-free name is the whole file name. */
  lemma {:induction false} FileNameOfJoin(directory: string, name: string)
    requires forall k :: 0 <= k < |name| ==> !IsSeparator(name[k])
    ensures FileName(directory + "\\" + name) == name
    decreases |name|
  {
    var path := directory + "\\" + name;
    if name == [] {
      assert path[|path| - 1] == '\\';
    } else {
      var front := name[..|name| - 1];
      FileNameOfJoin(directory, front);
      assert path[..|path| - 1] == directory + "\\" + front;
      assert front + [name[|name| - 1]] == name;
    }
  }

  /** Drops the extension: everything from the last '.' on, when there is one. */
  function WithoutExtension(name: string): string
  {
    if '.' !in name then name
    else if name[|name| - 1] == '.' then name[..|name| - 1]
    else WithoutExtension(name[..|name| - 1])
  }

  /** Without a '.' the name is kept; otherwise the result is the part before the last '.'. */
  lemma {:induction false} ExtensionDropped(name: string)
    ensures var r := WithoutExtension(name);
            && ('.' !in name ==> r == name)
            && ('.' in name ==> |r| < |name| && r == name[..|r|] && name[|r|] == '.' && '.' !in name[|r| + 1..])
  {
    if '.' in name && name[|name| - 1] != '.' {
      var front := name[..|name| - 1];
      assert '.' in front by {
        var k :| 0 <= k < |name| && name[k] == '.';
        assert front[k] == '.';
      }
      ExtensionDropped(front);
      var r := WithoutExtension(front);
      assert name[|r| + 1..] == front[|r| + 1..] + [name[|name| - 1]];
    }
  }

  /** Path.GetFileNameWithoutExtension. */
  function FileNameWithoutExtension(path: string): string
  {
    WithoutExtension(FileName(path))
  }

  /** A project file "dir\Name.csproj", with no '.' or separator in Name, goes by "Name". */
  lemma ProjectBaseName(directory: string, name: string)
    requires forall k :: 0 <= k < |name| ==> !IsSeparator(name[k]) && name[k] != '.'
    ensures FileNameWithoutExtension(directory + "\\" + name + ".csproj") == name
  {
    var file := name + ".csproj";
    assert directory + "\\" + name + ".csproj" == directory + "\\" + file;
    forall k | 0 <= k < |file| ensures !IsSeparator(file[k]) {
      if k >= |name| { assert file[k] == ".csproj"[k - |name|]; }
    }
    FileNameOfJoin(directory, file);
    ExtensionDropped(file);
    var r := WithoutExtension(file);
    assert file[|name|] == '.';
    // the only '.' in the file name is the one before "csproj"
    forall k | 0 <= k < |file| && k != |name| ensures file[k] != '.' {
      if k < |name| { assert file[k] == name[k]; }
      else { assert file[k] == ".csproj"[k - |name|]; }
    }
    assert |r| == |name|;
    assert file[..|name|] == name;
  }

  /** A project fails the import test: it imports none of the references and is not exempted. */
  predicate LacksImport(references: seq<string>, exempt: iset<string>, project: ProjectDocument)
  {
    !HasProjectReference(project.imports, references) && FileNameWithoutExtension(project.path) !in exempt
  }

  /** The failing projects among the first `count`. */
  function CountLacking(references: seq<string>, exempt: iset<string>, projects: seq<ProjectDocument>, count: nat): nat
    requires count <= |projects|
  {
    if count == 0 then 0
    else CountLacking(references, exempt, projects, count - 1)
         + (if LacksImport(references, exempt, projects[count - 1]) then 1 else 0)
  }

  /** The import test passes exactly when every project imports a reference or is exempted. */
  lemma {:induction false} NoLackingIffAllImportOrExempt(references: seq<string>, exempt: iset<string>,
                                                         projects: seq<ProjectDocument>, count: nat)
    requires count <= |projects|
    ensures CountLacking(references, exempt, projects, count) == 0
            <==> forall p :: 0 <= p < count ==> !LacksImport(references, exempt, projects[p])
  {
    if count > 0 {
      NoLackingIffAllImportOrExempt(references, exempt, projects, count - 1);
    }
  }

  /** Exempting more projects never adds failures. */
  lemma {:induction false} ExemptionMonotone(references: seq<string>, exempt: iset<string>, wider: iset<string>,
                                            projects: seq<ProjectDocument>, count: nat)
    requires count <= |projects| && exempt <= wider
    ensures CountLacking(references, wider, projects, count) <= CountLacking(references, exempt, projects, count)
  {
    if count > 0 {
      ExemptionMonotone(references, exempt, wider, projects, count - 1);
    }
  }

  /**
   * HasProjectImportReferece: count the C# projects that import none of the references and
   * whose base file name the exception checker does not accept; the test passes on 0.
   */
  method HasProjectImportReferece(name: string, references: seq<string>, exempt: iset<string>,
                                  projects: seq<ProjectDocument>)
    returns (failures: nat, passed: bool)
    requires name != ""
    ensures failures == CountLacking(references, exempt, projects, |projects|)
    ensures passed <==> forall p :: 0 <= p < |projects| ==> !LacksImport(references, exempt, projects[p])
  {
    failures := 0;
    var i := 0;
    while i < |projects|
      invariant i <= |projects|
      invariant failures == CountLacking(references, exempt, projects, i)
    {
      var project := projects[i];
      if !HasProjectReference(project.imports, references) {
        var filename := FileNameWithoutExtension(project.path);
        if filename !in exempt {
          failures := failures + 1;
        }
      }
      i := i + 1;
    }
    NoLackingIffAllImportOrExempt(references, exempt, projects, |projects|);
    passed := failures == 0;
  }
}
