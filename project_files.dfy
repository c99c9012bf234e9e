/**
 * ProjectFiles (BuildEnvironmentTests): compares the .cs files each C# project compiles with
 * the .cs files found in and below the project's folder. The "extra files" check reports
 * files on disk the project does not list; the "missing files" check reports listed files
 * that are not on disk. Build output under "\debug\" or "\release\" is ignored. The project
 * XML is given as a map from project file to its Compile Include values.
 */
module ProjectFiles {
  import opened Wrappers
  import opened Text
  import TextFile
  import opened FolderHelpers

  /** IsIgnoreExtraFile: the path runs through a "\debug\" or "\release\" folder (case-sensitive). */
  predicate IsIgnoreExtraFile(fileName: string)
    requires fileName != ""
  {
    Contains(fileName, "\\debug\\") || Contains(fileName, "\\release\\")
  }

  /** No upper-case ASCII letter: what ToLowerInvariant leaves. */
  predicate IsLower(s: string)
  {
    forall k :: 0 <= k < |s| ==> !('A' <= s[k] <= 'Z')
  }

  lemma LowerIsLower(s: string)
    ensures IsLower(Lower(s))
  {
    LowerChars(s);
  }

  lemma LowerOfLower(s: string)
    requires IsLower(s)
    ensures Lower(s) == s
  {
    LowerChars(s);
  }

  /** Every name is a real file name, as IsIgnoreExtraFile demands of the names it tests. */
  predicate AllNamed(files: seq<string>)
  {
    forall k :: 0 <= k < |files| ==> files[k] != ""
  }

  /** The candidates, in order, whose lower-cased form `listed` lacks and that are not ignored. */
  function Unlisted(candidates: seq<string>, listed: seq<string>): (r: seq<string>)
    requires AllNamed(candidates)
    ensures |r| <= |candidates|
    ensures forall i :: 0 <= i < |r| ==>
              r[i] in candidates && r[i] != "" && Lower(r[i]) !in listed && !IsIgnoreExtraFile(r[i])
  {
    if candidates == [] then []
    else
      var front, last := candidates[..|candidates| - 1], candidates[|candidates| - 1];
      assert AllNamed(front) by {
        forall k | 0 <= k < |front| ensures front[k] == candidates[k] { }
      }
      Unlisted(front, listed)
      + (if Lower(last) !in listed && !IsIgnoreExtraFile(last) then [last] else [])
  }

  /** Nothing is dropped: every unlisted, unignored candidate is reported. */
  lemma {:induction false} UnlistedComplete(candidates: seq<string>, listed: seq<string>, k: nat)
    requires AllNamed(candidates) && k < |candidates|
    requires Lower(candidates[k]) !in listed && !IsIgnoreExtraFile(candidates[k])
    ensures candidates[k] in Unlisted(candidates, listed)
    decreases |candidates|
  {
    var front := candidates[..|candidates| - 1];
    if k < |front| {
      assert AllNamed(front) by {
        forall j | 0 <= j < |front| ensures front[j] == candidates[j] { }
      }
      assert front[k] == candidates[k];
      UnlistedComplete(front, listed, k);
    }
  }

  /** The two checks the tests run over every project. */
  datatype Check = ExtraFiles | MissingFiles

  /** The files a check reports: folder files the project lacks, or project files the folder lacks. */
  function CheckReport(check: Check, projectFiles: seq<string>, folderFiles: seq<string>): seq<string>
    requires AllNamed(projectFiles) && AllNamed(folderFiles)
  {
    match check
    case ExtraFiles => Unlisted(folderFiles, projectFiles)
    case MissingFiles => Unlisted(projectFiles, folderFiles)
  }

  /** The List<string> that collects the reported files across all projects. */
  class FileList {
    var items: seq<string>

    constructor ()
      ensures items == []
    {
      items := [];
    }

    method Add(file: string)
      modifies this
      ensures items == old(items) + [file]
    {
      items := items + [file];
    }
  }

  /** The shared loop of both checks: report each unlisted, unignored candidate; say whether any was. */
  method ReportUnlisted(candidates: seq<string>, listed: seq<string>, errorFiles: FileList) returns (found: bool)
    requires AllNamed(candidates)
    modifies errorFiles
    ensures errorFiles.items == old(errorFiles.items) + Unlisted(candidates, listed)
    ensures found <==> Unlisted(candidates, listed) != []
  {
    found := false;
    var i := 0;
    while i < |candidates|
      invariant 0 <= i <= |candidates|
      invariant AllNamed(candidates[..i])
      invariant errorFiles.items == old(errorFiles.items) + Unlisted(candidates[..i], listed)
      invariant found <==> Unlisted(candidates[..i], listed) != []
    {
      var file := candidates[i];
      assert candidates[..i + 1][..i] == candidates[..i];
      if Lower(file) !in listed && !IsIgnoreExtraFile(file) {
        found := true;
        errorFiles.Add(file);
      }
      i := i + 1;
    }
    assert candidates[..i] == candidates;
  }

  /** CheckForAdditionalFiles: folder files the project does not compile. */
  method CheckForAdditionalFiles(projectFiles: seq<string>, folderFiles: seq<string>, errorFiles: FileList)
    returns (extraFilesFound: bool)
    requires AllNamed(projectFiles) && AllNamed(folderFiles)
    modifies errorFiles
    ensures errorFiles.items == old(errorFiles.items) + CheckReport(ExtraFiles, projectFiles, folderFiles)
    ensures extraFilesFound <==> CheckReport(ExtraFiles, projectFiles, folderFiles) != []
  {
    extraFilesFound := ReportUnlisted(folderFiles, projectFiles, errorFiles);
  }

  /** CheckForMissingFiles: compiled files that are not in the folder. */
  method CheckForMissingFiles(projectFiles: seq<string>, folderFiles: seq<string>, errorFiles: FileList)
    returns (missingFilesFound: bool)
    requires AllNamed(projectFiles) && AllNamed(folderFiles)
    modifies errorFiles
    ensures errorFiles.items == old(errorFiles.items) + CheckReport(MissingFiles, projectFiles, folderFiles)
    ensures missingFilesFound <==> CheckReport(MissingFiles, projectFiles, folderFiles) != []
  {
    missingFilesFound := ReportUnlisted(projectFiles, folderFiles, errorFiles);
  }

  /** The extra-files check is silent exactly when every folder file is listed or ignored. */
  lemma NoExtraFilesIffListed(projectFiles: seq<string>, folderFiles: seq<string>)
    requires AllNamed(projectFiles)
    requires forall k :: 0 <= k < |folderFiles| ==> folderFiles[k] != "" && IsLower(folderFiles[k])
    ensures CheckReport(ExtraFiles, projectFiles, folderFiles) == [] <==>
              forall k :: 0 <= k < |folderFiles| ==> folderFiles[k] in projectFiles || IsIgnoreExtraFile(folderFiles[k])
  {
    var report := CheckReport(ExtraFiles, projectFiles, folderFiles);
    if report == [] {
      forall k | 0 <= k < |folderFiles|
        ensures folderFiles[k] in projectFiles || IsIgnoreExtraFile(folderFiles[k])
      {
        LowerOfLower(folderFiles[k]);
        if folderFiles[k] !in projectFiles && !IsIgnoreExtraFile(folderFiles[k]) {
          UnlistedComplete(folderFiles, projectFiles, k);
        }
      }
    } else {
      var x := report[0];
      var k :| 0 <= k < |folderFiles| && folderFiles[k] == x;
      LowerOfLower(x);
    }
  }

  /** Build output is never reported, by either check. */
  lemma IgnoredNeverReported(check: Check, projectFiles: seq<string>, folderFiles: seq<string>, file: string)
    requires AllNamed(projectFiles) && AllNamed(folderFiles)
    requires file != "" && IsIgnoreExtraFile(file)
    ensures file !in CheckReport(check, projectFiles, folderFiles)
  {
  }

  /** The ignore test is case-sensitive: "\Debug\" does not count. */
  lemma IgnoreIsCaseSensitive()
    ensures IsIgnoreExtraFile("\\debug\\")
    ensures !IsIgnoreExtraFile("\\Debug\\")
  {
    assert "\\Debug\\"[1] != "\\debug\\"[1];
    assert !Contains("\\Debug\\"[1..], "\\debug\\");
    assert !Contains("\\Debug\\", "\\release\\");
  }

  /** The lines after the heading, each preceded by NewLine. */
  function FileLines(files: seq<string>): string
  {
    if files == [] then ""
    else FileLines(files[..|files| - 1]) + TextFile.NewLine + files[|files| - 1]
  }

  /** The text ErrorMessage builds. */
  function MessageText(messageText: string, files: seq<string>): string
  {
    messageText + ":" + FileLines(files)
  }

  /** ErrorMessage: the heading and a colon, then NewLine and a file for each file, in order. */
  method ErrorMessage(messageText: string, files: seq<string>) returns (message: string)
    requires messageText != ""
    ensures message == MessageText(messageText, files)
    ensures |message| > |messageText| && message[..|messageText| + 1] == messageText + ":"
  {
    message := messageText;
    message := message + ":";
    var i := 0;
    while i < |files|
      invariant 0 <= i <= |files|
      invariant message == messageText + ":" + FileLines(files[..i])
    {
      assert files[..i + 1][..i] == files[..i];
      message := message + TextFile.NewLine;
      message := message + files[i];
      i := i + 1;
    }
    assert files[..i] == files;
  }

  /** The message is the heading line and the files, written as a text file's lines. */
  lemma {:induction false} MessageIsJoinedLines(heading: string, files: seq<string>)
    ensures heading + FileLines(files) == TextFile.JoinLines([heading] + files)
    decreases |files|
  {
    if files != [] {
      var front, last := files[..|files| - 1], files[|files| - 1];
      MessageIsJoinedLines(heading, front);
      assert [heading] + files == ([heading] + front) + [last];
      TextFile.JoinAppend([heading] + front, last);
    } else {
      assert [heading] + files == [heading];
    }
  }

  /** Read back line by line, the message gives its heading and then the file names. */
  lemma MessageReadsBack(messageText: string, files: seq<string>)
    requires TextFile.NoBreaks(messageText + ":")
    requires forall i :: 0 <= i < |files| ==> TextFile.NoBreaks(files[i])
    requires files == [] || files[|files| - 1] != ""
    ensures TextFile.SplitLines(MessageText(messageText, files)) == [messageText + ":"] + files
  {
    var lines := [messageText + ":"] + files;
    MessageIsJoinedLines(messageText + ":", files);
    assert forall i :: 0 <= i < |lines| ==> TextFile.NoBreaks(lines[i]) by {
      forall i | 0 <= i < |lines| ensures TextFile.NoBreaks(lines[i]) {
        if i > 0 { assert lines[i] == files[i - 1]; }
      }
    }
    TextFile.ReadOfWrite(lines);
  }

  /** A project or code file on disk; the tree is well formed when every name and path is non-empty. */
  predicate WellFormed(f: Folder)
    decreases f
  {
    f.name != "" && f.path != ""
    && (forall k :: 0 <= k < |f.files| ==> f.files[k] != "")
    && forall i :: 0 <= i < |f.subfolders| ==> WellFormed(f.subfolders[i])
  }

  /** ToLowerInvariant on each name. */
  function LowerAll(files: seq<string>): (r: seq<string>)
    ensures |r| == |files|
    ensures forall k :: 0 <= k < |files| ==> r[k] == Lower(files[k])
  {
    if files == [] then [] else [Lower(files[0])] + LowerAll(files[1..])
  }

  /** The folder's own files matching each mask in turn, lower-cased. */
  function MaskMatches(files: seq<string>, masks: seq<string>): (r: seq<string>)
    requires forall k :: 0 <= k < |files| ==> files[k] != ""
    ensures forall k :: 0 <= k < |r| ==> r[k] != "" && IsLower(r[k])
  {
    if masks == [] then []
    else
      var here := LowerAll(FilesMatching(files, masks[0]));
      assert forall k :: 0 <= k < |here| ==> here[k] != "" && IsLower(here[k]) by {
        var matching := FilesMatching(files, masks[0]);
        forall k | 0 <= k < |here| ensures here[k] != "" && IsLower(here[k]) {
          assert matching[k] in files;
          var j :| 0 <= j < |files| && files[j] == matching[k];
          LowerIsLower(matching[k]);
        }
      }
      here + MaskMatches(files, masks[1..])
  }

  /** Every file matching one of the masks is listed, lower-cased. */
  lemma {:induction false} MaskMatchesComplete(files: seq<string>, masks: seq<string>, m: string, file: string)
    requires forall k :: 0 <= k < |files| ==> files[k] != ""
    requires m in masks && file in files && HasExtension(file, m)
    ensures Lower(file) in MaskMatches(files, masks)
    decreases |masks|
  {
    var matching := FilesMatching(files, masks[0]);
    var here := LowerAll(matching);
    if m == masks[0] {
      var k :| 0 <= k < |matching| && matching[k] == file;
      assert here[k] == Lower(file);
    } else {
      MaskMatchesComplete(files, masks[1..], m, file);
    }
  }

  /**
   * GetFilesInProjectFolder: nothing for an excluded folder; otherwise its own files matching
   * the masks, lower-cased, then the result for each subfolder in turn.
   */
  function GetFilesInProjectFolder(f: Folder, masks: seq<string>): (r: seq<string>)
    requires WellFormed(f)
    ensures IsExcludedFolder(f.name) ==> r == []
    ensures forall k :: 0 <= k < |r| ==> r[k] != "" && IsLower(r[k])
    decreases f, 1
  {
    if IsExcludedFolder(f.name) then []
    else MaskMatches(f.files, masks) + FilesInSubfolders(f.subfolders, masks, f)
  }

  function FilesInSubfolders(fs: seq<Folder>, masks: seq<string>, parent: Folder): (r: seq<string>)
    requires forall i :: 0 <= i < |fs| ==> fs[i] < parent && WellFormed(fs[i])
    ensures forall k :: 0 <= k < |r| ==> r[k] != "" && IsLower(r[k])
    decreases parent, 0, |fs|
  {
    if fs == [] then [] else GetFilesInProjectFolder(fs[0], masks) + FilesInSubfolders(fs[1..], masks, parent)
  }

  /** The file lies in the folder or below it, and no folder on the way down is excluded. */
  predicate Reaches(f: Folder, file: string)
    requires WellFormed(f)
    decreases f
  {
    !IsExcludedFolder(f.name)
    && (file in f.files || exists i :: 0 <= i < |f.subfolders| && Reaches(f.subfolders[i], file))
  }

  /** Every matching file that the walk reaches is listed, lower-cased. */
  lemma {:induction false} ReachedFilesListed(f: Folder, masks: seq<string>, m: string, file: string)
    requires WellFormed(f) && m in masks && HasExtension(file, m) && Reaches(f, file)
    ensures Lower(file) in GetFilesInProjectFolder(f, masks)
    decreases f
  {
    if file in f.files {
      MaskMatchesComplete(f.files, masks, m, file);
    } else {
      var i :| 0 <= i < |f.subfolders| && Reaches(f.subfolders[i], file);
      ReachedFilesListed(f.subfolders[i], masks, m, file);
      ListedInSubfolder(f.subfolders, masks, f, i, Lower(file));
    }
  }

  lemma {:induction false} ListedInSubfolder(fs: seq<Folder>, masks: seq<string>, parent: Folder, i: nat, x: string)
    requires forall j :: 0 <= j < |fs| ==> fs[j] < parent && WellFormed(fs[j])
    requires i < |fs| && x in GetFilesInProjectFolder(fs[i], masks)
    ensures x in FilesInSubfolders(fs, masks, parent)
    decreases |fs|
  {
    if i > 0 {
      ListedInSubfolder(fs[1..], masks, parent, i - 1, x);
    }
  }

  /** The files a project compiles: each Include, under the project's folder, lower-cased. */
  function CompiledFiles(projectFolder: string, includes: seq<string>): seq<string>
  {
    if includes == [] then []
    else [Lower(projectFolder + "\\" + includes[0])] + CompiledFiles(projectFolder, includes[1..])
  }

  /** Each compiled file is the lower-cased full name of its include, so none is empty. */
  lemma {:induction false} CompiledFilesNamed(projectFolder: string, includes: seq<string>)
    ensures var r := CompiledFiles(projectFolder, includes);
            |r| == |includes| && forall k :: 0 <= k < |r| ==> r[k] != "" && IsLower(r[k])
    decreases |includes|
  {
    if includes != [] {
      LowerIsLower(projectFolder + "\\" + includes[0]);
      CompiledFilesNamed(projectFolder, includes[1..]);
      var r := CompiledFiles(projectFolder, includes);
      assert forall k :: 1 <= k < |r| ==> r[k] == CompiledFiles(projectFolder, includes[1..])[k - 1];
    }
  }

  /** The masks ProcessCSharpProject lists a project folder with: "*.cs". */
  const CodeMasks: seq<string> := [".cs"]

  /** The .cs files in and below a project folder, as ProcessCSharpProject lists them. */
  function FolderCodeFiles(f: Folder): (r: seq<string>)
    requires WellFormed(f)
    ensures AllNamed(r) && forall k :: 0 <= k < |r| ==> IsLower(r[k])
  {
    GetFilesInProjectFolder(f, CodeMasks)
  }

  /** What one project's check reports, given the listing of its folder. */
  function ProjectReport(check: Check, projectFolder: string, includes: seq<string>, folderFiles: seq<string>): seq<string>
    requires AllNamed(folderFiles)
  {
    CompiledFilesNamed(projectFolder, includes);
    CheckReport(check, CompiledFiles(projectFolder, includes), folderFiles)
  }

  /**
   * ProcessCSharpProject: compare the project's compiled files with the listing of the .cs
   * files in and below its folder; true when the check reports nothing.
   */
  method ProcessCSharpProject(check: Check, projectFolder: string, projectFileName: string, includes: seq<string>,
                              folderFiles: seq<string>, errorFiles: FileList)
    returns (ok: bool)
    requires projectFolder != "" && projectFileName != "" && AllNamed(folderFiles)
    modifies errorFiles
    ensures errorFiles.items == old(errorFiles.items) + ProjectReport(check, projectFolder, includes, folderFiles)
    ensures ok <==> |ProjectReport(check, projectFolder, includes, folderFiles)| == 0
  {
    var projectFiles := CompiledFiles(projectFolder, includes);
    CompiledFilesNamed(projectFolder, includes);
    var errors;
    match check {
      case ExtraFiles =>
        errors := CheckForAdditionalFiles(projectFiles, folderFiles, errorFiles);
      case MissingFiles =>
        errors := CheckForMissingFiles(projectFiles, folderFiles, errorFiles);
    }
    ok := !errors;
  }

  /** The Compile Include values of each project file, as the project's XML lists them. */
  type CompileItems = map<string, seq<string>>

  /** The includes of one project; a project file the map does not hold compiles nothing. */
  function IncludesOf(compileItems: CompileItems, projectFile: string): seq<string>
  {
    if projectFile in compileItems then compileItems[projectFile] else []
  }

  /** The C# projects directly in a folder: its "*.csproj" files. */
  function ProjectsIn(f: Folder): seq<string>
  {
    FilesMatching(f.files, ".csproj")
  }

  lemma ProjectsNamed(f: Folder)
    requires WellFormed(f)
    ensures forall k :: 0 <= k < |ProjectsIn(f)| ==> ProjectsIn(f)[k] != ""
  {
    var projects := ProjectsIn(f);
    forall k | 0 <= k < |projects| ensures projects[k] != "" {
      assert projects[k] in f.files;
      var j :| 0 <= j < |f.files| && f.files[j] == projects[k];
    }
  }

  /** The reports of the first `count` projects of one folder, in order. */
  function ProjectsReport(check: Check, projectFolder: string, projects: seq<string>, count: nat,
                          compileItems: CompileItems, folderFiles: seq<string>): seq<string>
    requires count <= |projects| && AllNamed(folderFiles)
  {
    if count == 0 then []
    else ProjectsReport(check, projectFolder, projects, count - 1, compileItems, folderFiles)
         + ProjectReport(check, projectFolder, IncludesOf(compileItems, projects[count - 1]), folderFiles)
  }

  /**
   * What ProcessFolder reports for a folder: nothing for an excluded one; otherwise, when C#
   * projects are processed, each project's report, then each subfolder's.
   */
  function FolderReport(processCs: bool, check: Check, f: Folder, compileItems: CompileItems): seq<string>
    requires WellFormed(f)
    decreases f, 1
  {
    if IsExcludedFolder(f.name) then []
    else
      OwnReport(processCs, check, f, compileItems)
      + SubfoldersReport(processCs, check, f, |f.subfolders|, compileItems)
  }

  /** The reports of the folder's own projects, against the listing of its .cs files. */
  function OwnReport(processCs: bool, check: Check, f: Folder, compileItems: CompileItems): seq<string>
    requires WellFormed(f)
  {
    if processCs then ProjectsReport(check, f.path, ProjectsIn(f), |ProjectsIn(f)|, compileItems, FolderCodeFiles(f)) else []
  }

  /** The projects part of ProcessFolder: each "*.csproj" file against the folder's listing. */
  method ProcessOwnProjects(processCs: bool, check: Check, f: Folder, compileItems: CompileItems, errorFiles: FileList)
    returns (ok: bool)
    requires WellFormed(f)
    modifies errorFiles
    ensures errorFiles.items == old(errorFiles.items) + OwnReport(processCs, check, f, compileItems)
    ensures ok <==> |OwnReport(processCs, check, f, compileItems)| == 0
  {
    ok := true;
    if processCs {
      var folderFiles := FolderCodeFiles(f);
      ProjectsNamed(f);
      ok := ProcessProjects(check, f.path, ProjectsIn(f), compileItems, folderFiles, errorFiles);
    }
  }

  /** The reports of the first `count` subfolders of a folder, in order. */
  function SubfoldersReport(processCs: bool, check: Check, f: Folder, count: nat, compileItems: CompileItems): seq<string>
    requires WellFormed(f) && count <= |f.subfolders|
    decreases f, 0, count
  {
    if count == 0 then []
    else SubfoldersReport(processCs, check, f, count - 1, compileItems)
         + FolderReport(processCs, check, f.subfolders[count - 1], compileItems)
  }

  /**
   * ProcessFolder: every project and every subfolder is processed even after a failure
   * (the results are combined with a non-short-circuit and); true when nothing was reported.
   */
  method ProcessFolder(processCs: bool, check: Check, f: Folder, compileItems: CompileItems, errorFiles: FileList)
    returns (ok: bool)
    requires WellFormed(f)
    modifies errorFiles
    ensures errorFiles.items == old(errorFiles.items) + FolderReport(processCs, check, f, compileItems)
    ensures ok <==> |FolderReport(processCs, check, f, compileItems)| == 0
    decreases f, 1
  {
    if IsExcludedFolder(f.name) {
      return true;
    }
    ghost var before := errorFiles.items;
    ok := ProcessOwnProjects(processCs, check, f, compileItems, errorFiles);
    var subfoldersOk := ProcessSubfolders(processCs, check, f, compileItems, errorFiles);
    AppendAssoc(before, OwnReport(processCs, check, f, compileItems),
                SubfoldersReport(processCs, check, f, |f.subfolders|, compileItems));
    ok := ok && subfoldersOk;
  }

  /** Regrouping appended reports, stated once so the walk's methods need not rediscover it. */
  lemma AppendAssoc(a: seq<string>, b: seq<string>, c: seq<string>)
    ensures (a + b) + c == a + (b + c)
  {
  }

  /** The fold over a folder's "*.csproj" files, starting from true. */
  method ProcessProjects(check: Check, projectFolder: string, projects: seq<string>, compileItems: CompileItems,
                         folderFiles: seq<string>, errorFiles: FileList)
    returns (ok: bool)
    requires projectFolder != "" && AllNamed(projects) && AllNamed(folderFiles)
    modifies errorFiles
    ensures errorFiles.items == old(errorFiles.items) + ProjectsReport(check, projectFolder, projects, |projects|, compileItems, folderFiles)
    ensures ok <==> |ProjectsReport(check, projectFolder, projects, |projects|, compileItems, folderFiles)| == 0
  {
    ok := true;
    var i := 0;
    while i < |projects|
      invariant 0 <= i <= |projects|
      invariant errorFiles.items == old(errorFiles.items) + ProjectsReport(check, projectFolder, projects, i, compileItems, folderFiles)
      invariant ok <==> |ProjectsReport(check, projectFolder, projects, i, compileItems, folderFiles)| == 0
    {
      ghost var done := ProjectsReport(check, projectFolder, projects, i, compileItems, folderFiles);
      ghost var next := ProjectReport(check, projectFolder, IncludesOf(compileItems, projects[i]), folderFiles);
      var projectOk := ProcessCSharpProject(check, projectFolder, projects[i], IncludesOf(compileItems, projects[i]),
                                            folderFiles, errorFiles);
      AppendAssoc(old(errorFiles.items), done, next);
      ok := ok && projectOk;
      i := i + 1;
    }
  }

  /** The fold over the subfolders, every one of them processed. */
  method ProcessSubfolders(processCs: bool, check: Check, f: Folder, compileItems: CompileItems, errorFiles: FileList)
    returns (ok: bool)
    requires WellFormed(f)
    modifies errorFiles
    ensures errorFiles.items == old(errorFiles.items) + SubfoldersReport(processCs, check, f, |f.subfolders|, compileItems)
    ensures ok <==> |SubfoldersReport(processCs, check, f, |f.subfolders|, compileItems)| == 0
    decreases f, 0
  {
    ok := true;
    var j := 0;
    while j < |f.subfolders|
      invariant 0 <= j <= |f.subfolders|
      invariant errorFiles.items == old(errorFiles.items) + SubfoldersReport(processCs, check, f, j, compileItems)
      invariant ok <==> |SubfoldersReport(processCs, check, f, j, compileItems)| == 0
    {
      ghost var done := SubfoldersReport(processCs, check, f, j, compileItems);
      var folderOk := ProcessFolder(processCs, check, f.subfolders[j], compileItems, errorFiles);
      AppendAssoc(old(errorFiles.items), done, FolderReport(processCs, check, f.subfolders[j], compileItems));
      ok := ok && folderOk;
      j := j + 1;
    }
  }

  /** Without C# processing nothing is ever checked, so the walk always passes. */
  lemma {:induction false} NoProjectsNoReports(check: Check, f: Folder, compileItems: CompileItems)
    requires WellFormed(f)
    ensures FolderReport(false, check, f, compileItems) == []
    decreases f, 1
  {
    if !IsExcludedFolder(f.name) {
      NoSubfolderReports(check, f, |f.subfolders|, compileItems);
    }
  }

  lemma {:induction false} NoSubfolderReports(check: Check, f: Folder, count: nat, compileItems: CompileItems)
    requires WellFormed(f) && count <= |f.subfolders|
    ensures SubfoldersReport(false, check, f, count, compileItems) == []
    decreases f, 0, count
  {
    if count > 0 {
      NoSubfolderReports(check, f, count - 1, compileItems);
      NoProjectsNoReports(check, f.subfolders[count - 1], compileItems);
    }
  }

  /** Every reported file is a lower-cased name that is not build output. */
  predicate Reportable(x: string)
  {
    x != "" && IsLower(x) && !IsIgnoreExtraFile(x)
  }

  predicate AllReportable(report: seq<string>)
  {
    forall k :: 0 <= k < |report| ==> Reportable(report[k])
  }

  lemma ReportableAppend(a: seq<string>, b: seq<string>)
    requires AllReportable(a) && AllReportable(b)
    ensures AllReportable(a + b)
  {
    forall k | 0 <= k < |a + b| ensures Reportable((a + b)[k]) {
      if k >= |a| { assert (a + b)[k] == b[k - |a|]; }
    }
  }

  lemma ProjectReportReportable(check: Check, projectFolder: string, includes: seq<string>, folderFiles: seq<string>)
    requires AllNamed(folderFiles) && forall k :: 0 <= k < |folderFiles| ==> IsLower(folderFiles[k])
    ensures AllReportable(ProjectReport(check, projectFolder, includes, folderFiles))
  {
    var report := ProjectReport(check, projectFolder, includes, folderFiles);
    var p := CompiledFiles(projectFolder, includes);
    CompiledFilesNamed(projectFolder, includes);
    forall k | 0 <= k < |report| ensures Reportable(report[k]) {
      if check.ExtraFiles? {
        var i :| 0 <= i < |folderFiles| && folderFiles[i] == report[k];
      } else {
        var i :| 0 <= i < |p| && p[i] == report[k];
      }
    }
  }

  lemma {:induction false} ProjectsReportReportable(check: Check, projectFolder: string, projects: seq<string>,
                                                    count: nat, compileItems: CompileItems, folderFiles: seq<string>)
    requires count <= |projects| && AllNamed(folderFiles) && forall k :: 0 <= k < |folderFiles| ==> IsLower(folderFiles[k])
    ensures AllReportable(ProjectsReport(check, projectFolder, projects, count, compileItems, folderFiles))
  {
    if count > 0 {
      ProjectsReportReportable(check, projectFolder, projects, count - 1, compileItems, folderFiles);
      ProjectReportReportable(check, projectFolder, IncludesOf(compileItems, projects[count - 1]), folderFiles);
      ReportableAppend(ProjectsReport(check, projectFolder, projects, count - 1, compileItems, folderFiles),
                       ProjectReport(check, projectFolder, IncludesOf(compileItems, projects[count - 1]), folderFiles));
    }
  }

  lemma {:induction false} FolderReportReportable(processCs: bool, check: Check, f: Folder, compileItems: CompileItems)
    requires WellFormed(f)
    ensures AllReportable(FolderReport(processCs, check, f, compileItems))
    decreases f, 1
  {
    if !IsExcludedFolder(f.name) {
      var projectsReport := if processCs then ProjectsReport(check, f.path, ProjectsIn(f), |ProjectsIn(f)|, compileItems, FolderCodeFiles(f)) else [];
      if processCs {
        ProjectsReportReportable(check, f.path, ProjectsIn(f), |ProjectsIn(f)|, compileItems, FolderCodeFiles(f));
      }
      SubfoldersReportReportable(processCs, check, f, |f.subfolders|, compileItems);
      ReportableAppend(projectsReport, SubfoldersReport(processCs, check, f, |f.subfolders|, compileItems));
    }
  }

  lemma {:induction false} SubfoldersReportReportable(processCs: bool, check: Check, f: Folder, count: nat, compileItems: CompileItems)
    requires WellFormed(f) && count <= |f.subfolders|
    ensures AllReportable(SubfoldersReport(processCs, check, f, count, compileItems))
    decreases f, 0, count
  {
    if count > 0 {
      SubfoldersReportReportable(processCs, check, f, count - 1, compileItems);
      FolderReportReportable(processCs, check, f.subfolders[count - 1], compileItems);
      ReportableAppend(SubfoldersReport(processCs, check, f, count - 1, compileItems),
                       FolderReport(processCs, check, f.subfolders[count - 1], compileItems));
    }
  }

  const ExtraFilesHeading: string := "Extra files were found"
  const MissingFilesHeading: string := "Missing files were found"

  /** The assertion message each test builds its report under. */
  function Heading(check: Check): (h: string)
    ensures h != ""
  {
    match check
    case ExtraFiles => ExtraFilesHeading
    case MissingFiles => MissingFilesHeading
  }

  /** The NoExtraFiles / NoMissingFiles tests: walk from the root, then build the failure message. */
  method RunFilesTest(check: Check, root: Folder, compileItems: CompileItems)
    returns (passed: bool, message: string)
    requires WellFormed(root)
    ensures passed <==> FolderReport(true, check, root, compileItems) == []
    ensures message == MessageText(Heading(check), FolderReport(true, check, root, compileItems))
  {
    var errorFiles := new FileList();
    passed := ProcessFolder(true, check, root, compileItems, errorFiles);
    var reported := errorFiles.items;
    assert reported == FolderReport(true, check, root, compileItems);
    message := ErrorMessage(Heading(check), reported);
  }
}
