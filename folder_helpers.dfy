/**
 * FolderHelpers (BuildEnvironmentTests): the folder names the environment tests skip, the
 * conversion of the test assembly's code-base URL to a file name, the walk up from the
 * assembly's directory to the solution root, and the project lists found below that root.
 * The disk is modelled by a `Folder` tree and by the set of directories that hold the
 * marker file; XML and reflection stay outside.
 */
module FolderHelpers {
  import opened Wrappers
  import opened Text
  import FolderProcessor

  /** The marker file whose presence makes a directory the solution root. */
  const SolutionFilename: string := "Settings.FxCop"

  /** The scheme prefix of a local code-base URL. */
  const FilePrefix: string := "file:///"

  /** IsExcludedFolder: ".svn", ".git" or "Precompiled", ignoring case. */
  predicate IsExcludedFolder(name: string)
    requires name != ""
  {
    EqualsIgnoreCase(name, ".svn") || EqualsIgnoreCase(name, ".git") || EqualsIgnoreCase(name, "Precompiled")
  }

  /** The tests skip every folder the version stamper skips, and "Precompiled" besides. */
  lemma ExclusionWidensStamperRule(name: string)
    requires name != ""
    ensures IsExcludedFolder(name) <==> FolderProcessor.IsExcludedFolder(name) || EqualsIgnoreCase(name, "Precompiled")
  {
  }

  /** "Precompiled" (in any case) is the one name the tests skip and the stamper walks into. */
  lemma PrecompiledOnlyExcludedHere()
    ensures IsExcludedFolder("PRECOMPILED") && IsExcludedFolder("Precompiled")
    ensures !FolderProcessor.IsExcludedFolder("Precompiled")
  {
    assert !EqualsIgnoreCase("Precompiled", ".svn") && !EqualsIgnoreCase("Precompiled", ".git");
  }

  /** String.Replace(from, to) on characters. */
  function ReplaceChar(s: string, from: char, to: char): (r: string)
    ensures |r| == |s|
    ensures forall k :: 0 <= k < |s| ==> r[k] == (if s[k] == from then to else s[k])
  {
    if s == [] then [] else [if s[0] == from then to else s[0]] + ReplaceChar(s[1..], from, to)
  }

  /**
   * CodeBaseUrlAsFileName: a code base that starts with "file:///" (ignoring case) loses that
   * prefix and has every '/' turned into '\'; any other code base is returned as it is.
   */
  function CodeBaseUrlAsFileName(codeBase: string): (fileName: string)
    ensures !StartsWithIgnoreCase(codeBase, FilePrefix) ==> fileName == codeBase
    ensures StartsWithIgnoreCase(codeBase, FilePrefix) ==>
              |fileName| == |codeBase| - |FilePrefix| && '/' !in fileName
              && (forall k :: 0 <= k < |fileName| && codeBase[|FilePrefix| + k] != '/' ==>
                    fileName[k] == codeBase[|FilePrefix| + k])
              && (forall k :: 0 <= k < |fileName| && codeBase[|FilePrefix| + k] == '/' ==> fileName[k] == '\\')
  {
    if StartsWithIgnoreCase(codeBase, FilePrefix) then ReplaceChar(codeBase[|FilePrefix|..], '/', '\\')
    else codeBase
  }

  /** The URL form of a Windows file name: the prefix, then '/' where the name has '\'. */
  function FileUrl(fileName: string): string
  {
    FilePrefix + ReplaceChar(fileName, '\\', '/')
  }

  /** A file name without '/' survives the trip to its URL and back. */
  lemma CodeBaseOfFileUrl(fileName: string)
    requires '/' !in fileName
    ensures CodeBaseUrlAsFileName(FileUrl(fileName)) == fileName
  {
    var url := FileUrl(fileName);
    assert url[..|FilePrefix|] == FilePrefix;
    assert url[|FilePrefix|..] == ReplaceChar(fileName, '\\', '/');
    var back := CodeBaseUrlAsFileName(url);
    forall k | 0 <= k < |fileName|
      ensures back[k] == fileName[k]
    {
      assert fileName[k] != '/';
    }
  }

  /** Converting an already converted name changes nothing: the result never starts with the prefix. */
  lemma CodeBaseConversionIdempotent(codeBase: string)
    ensures CodeBaseUrlAsFileName(CodeBaseUrlAsFileName(codeBase)) == CodeBaseUrlAsFileName(codeBase)
  {
    var once := CodeBaseUrlAsFileName(codeBase);
    if StartsWithIgnoreCase(codeBase, FilePrefix) && |FilePrefix| <= |once| {
      assert once[5] != '/';
      assert Upper(once[5]) != Upper(FilePrefix[5]);
      assert !EqualsIgnoreCase(once[..|FilePrefix|], FilePrefix);
    }
  }

  /** A directory, named by the names on the way down from its drive root. */
  type DirPath = seq<string>

  /** DirectoryInfo.Parent: a drive root (a single name) has none. */
  function Parent(dir: DirPath): Option<DirPath>
  {
    if |dir| <= 1 then None else Some(dir[..|dir| - 1])
  }

  /** No directory on the way up from `dir`, longer than `floor` names, holds the marker. */
  predicate NoRootAbove(dir: DirPath, roots: set<DirPath>, floor: nat)
  {
    forall n :: floor < n <= |dir| ==> dir[..n] !in roots
  }

  /**
   * The directory RootPath stops at: the first of `dir`, its parent, its grandparent, ...
   * that is in `roots` (the directories holding SolutionFilename), or None.
   */
  function NearestRoot(dir: DirPath, roots: set<DirPath>): (r: Option<DirPath>)
    ensures r.Some? ==> r.value in roots && |r.value| <= |dir| && r.value == dir[..|r.value|]
                        && (r.value == dir || 1 <= |r.value|) && NoRootAbove(dir, roots, |r.value|)
    ensures r.None? ==> dir !in roots && NoRootAbove(dir, roots, 0)
    decreases |dir|
  {
    if dir in roots then Some(dir)
    else if |dir| <= 1 then
      assert dir[..|dir|] == dir;
      None
    else
      var r := NearestRoot(dir[..|dir| - 1], roots);
      NoRootAboveParent(dir, roots, if r.Some? then |r.value| else 0);
      r
  }

  /** An unmarked directory adds nothing marked to what lies above its parent. */
  lemma NoRootAboveParent(dir: DirPath, roots: set<DirPath>, floor: nat)
    requires 1 <= |dir| && dir !in roots && NoRootAbove(dir[..|dir| - 1], roots, floor)
    ensures NoRootAbove(dir, roots, floor)
  {
    forall n | floor < n <= |dir|
      ensures dir[..n] !in roots
    {
      if n < |dir| {
        assert dir[..n] == dir[..|dir| - 1][..n];
      } else {
        assert dir[..n] == dir;
      }
    }
  }

  /** A marker in the assembly's own directory wins over every ancestor. */
  lemma OwnDirectoryFirst(dir: DirPath, roots: set<DirPath>)
    requires dir in roots
    ensures NearestRoot(dir, roots) == Some(dir)
  {
  }

  /** The walk finds a marked ancestor whenever there is one. */
  lemma {:induction false} MarkedAncestorFound(dir: DirPath, roots: set<DirPath>, n: nat)
    requires 1 <= n <= |dir| && dir[..n] in roots
    ensures NearestRoot(dir, roots).Some?
    ensures n <= |NearestRoot(dir, roots).value|
    decreases |dir|
  {
    if dir !in roots && n < |dir| {
      var up := dir[..|dir| - 1];
      assert up[..n] == dir[..n];
      MarkedAncestorFound(up, roots, n);
    }
  }

  /** Why RootPath fails. */
  datatype RootPathError = NoDirectory | NoSolutionRoot

  /**
   * RootPath: the assembly file's directory (None when FileInfo has none), walked up until a
   * directory holds SolutionFilename. Both throws become failures.
   */
  method RootPath(directory: Option<DirPath>, roots: set<DirPath>) returns (r: Result<DirPath, RootPathError>)
    ensures directory.None? ==> r == Failure(NoDirectory)
    ensures directory.Some? && NearestRoot(directory.value, roots).None? ==> r == Failure(NoSolutionRoot)
    ensures directory.Some? && NearestRoot(directory.value, roots).Some? ==>
              r == Success(NearestRoot(directory.value, roots).value)
  {
    if directory.None? {
      return Failure(NoDirectory);
    }
    var dir := directory;
    while dir.Some? && dir.value !in roots
      invariant dir.Some? ==> NearestRoot(dir.value, roots) == NearestRoot(directory.value, roots)
      invariant dir.None? ==> NearestRoot(directory.value, roots).None?
      decreases if dir.Some? then |dir.value| + 1 else 0
    {
      dir := Parent(dir.value);
    }
    if dir.None? {
      return Failure(NoSolutionRoot);
    }
    return Success(dir.value);
  }

  /** A directory on disk: its name, its full name, the full names of its files, its subdirectories. */
  datatype Folder = Folder(name: string, path: string, files: seq<string>, subfolders: seq<Folder>)

  /** Every directory in the tree has a non-empty name, as every directory on disk does. */
  predicate WellNamed(f: Folder)
    decreases f
  {
    f.name != "" && forall i :: 0 <= i < |f.subfolders| ==> WellNamed(f.subfolders[i])
  }

  /** A file matches a "*.ext" mask when it ends with ".ext", ignoring case. */
  predicate HasExtension(file: string, extension: string)
  {
    |extension| <= |file| && EqualsIgnoreCase(file[|file| - |extension|..], extension)
  }

  /** The files, in order, that match the mask. */
  function FilesMatching(files: seq<string>, extension: string): (r: seq<string>)
    ensures |r| <= |files|
    ensures forall x :: x in r <==> x in files && HasExtension(x, extension)
  {
    if files == [] then []
    else (if HasExtension(files[0], extension) then [files[0]] else []) + FilesMatching(files[1..], extension)
  }

  /** The file lies in the folder or in any folder below it; no folder is skipped. */
  predicate InTree(f: Folder, file: string)
    decreases f
  {
    file in f.files || exists i :: 0 <= i < |f.subfolders| && InTree(f.subfolders[i], file)
  }

  /**
   * Directory.GetFiles(root, "*" + extension, AllDirectories): the folder's own matches,
   * then those of each subdirectory in turn.
   */
  function AllFilesMatching(f: Folder, extension: string): seq<string>
    decreases f, 1
  {
    FilesMatching(f.files, extension) + AllFilesMatchingIn(f.subfolders, extension, f)
  }

  function AllFilesMatchingIn(fs: seq<Folder>, extension: string, parent: Folder): seq<string>
    requires forall i :: 0 <= i < |fs| ==> fs[i] < parent
    decreases parent, 0, |fs|
  {
    if fs == [] then [] else AllFilesMatching(fs[0], extension) + AllFilesMatchingIn(fs[1..], extension, parent)
  }

  /** The search lists exactly the matching files anywhere in the tree. */
  lemma {:induction false} AllFilesMatchingExactly(f: Folder, extension: string, file: string)
    ensures file in AllFilesMatching(f, extension) <==> InTree(f, file) && HasExtension(file, extension)
    decreases f, 1
  {
    AllFilesMatchingInExactly(f.subfolders, extension, f, file);
  }

  lemma {:induction false} AllFilesMatchingInExactly(fs: seq<Folder>, extension: string, parent: Folder, file: string)
    requires forall i :: 0 <= i < |fs| ==> fs[i] < parent
    ensures file in AllFilesMatchingIn(fs, extension, parent) <==>
              HasExtension(file, extension) && exists i :: 0 <= i < |fs| && InTree(fs[i], file)
    decreases parent, 0, |fs|
  {
    if fs != [] {
      AllFilesMatchingExactly(fs[0], extension, file);
      AllFilesMatchingInExactly(fs[1..], extension, parent, file);
      if exists i :: 0 <= i < |fs| && InTree(fs[i], file) {
        var i :| 0 <= i < |fs| && InTree(fs[i], file);
        if i > 0 {
          assert fs[1..][i - 1] == fs[i];
        }
      }
      if exists i :: 0 <= i < |fs[1..]| && InTree(fs[1..][i], file) {
        var i :| 0 <= i < |fs[1..]| && InTree(fs[1..][i], file);
        assert fs[i + 1] == fs[1..][i];
      }
    }
  }

  /** AllCSharpProjects: every "*.csproj" below the root. */
  function AllCSharpProjects(root: Folder): seq<string>
  {
    AllFilesMatching(root, ".csproj")
  }

  /** AllVisualBasicProjects: every "*.vbproj" below the root. */
  function AllVisualBasicProjects(root: Folder): seq<string>
  {
    AllFilesMatching(root, ".vbproj")
  }

  /** AllCodeProjects: the C# projects, then the Visual Basic ones. */
  function AllCodeProjects(root: Folder): (r: seq<string>)
    ensures |r| == |AllCSharpProjects(root)| + |AllVisualBasicProjects(root)|
    ensures r[..|AllCSharpProjects(root)|] == AllCSharpProjects(root)
    ensures r[|AllCSharpProjects(root)|..] == AllVisualBasicProjects(root)
  {
    AllCSharpProjects(root) + AllVisualBasicProjects(root)
  }

  /**
   * The code-project list holds exactly the C# and Visual Basic projects of the tree,
   * excluded folders included: unlike the folder walks, this search prunes nothing.
   */
  lemma CodeProjectsExactly(root: Folder, file: string)
    ensures file in AllCodeProjects(root) <==>
              InTree(root, file) && (HasExtension(file, ".csproj") || HasExtension(file, ".vbproj"))
  {
    AllFilesMatchingExactly(root, ".csproj", file);
    AllFilesMatchingExactly(root, ".vbproj", file);
  }
}
