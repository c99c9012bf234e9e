/**
 * FolderProcessor: a post-order walk of a directory tree that skips subdirectories named
 * ".svn" or ".git" (ignoring case) together with everything below them. The callback's
 * effect is left abstract: the walk is modelled by the sequence of directories, named by
 * their paths from the root, on which the callback is invoked.
 */
module FolderProcessor {
  import opened Wrappers
  import opened Text

  /** A directory and its subdirectories, in the order GetDirectories returns them. */
  datatype Dir = Dir(name: string, children: seq<Dir>)

  /** A directory named by the names on the way from the root, the root's own name first. */
  type Path = seq<string>

  /** IsExcludedFolder: ".svn" or ".git", ignoring case. */
  predicate IsExcludedFolder(name: string)
  {
    EqualsIgnoreCase(name, ".svn") || EqualsIgnoreCase(name, ".git")
  }

  /** Excluded are exactly the names whose invariant lower-case form is ".svn" or ".git". */
  lemma ExcludedIffLowerName(name: string)
    ensures IsExcludedFolder(name) <==> Lower(name) == ".svn" || Lower(name) == ".git"
  {
    EqualsIgnoreCaseIffLower(name, ".svn");
    EqualsIgnoreCaseIffLower(name, ".git");
  }

  /** Case does not matter; the name must be exactly four characters long. */
  lemma ExcludedFolderExamples()
    ensures IsExcludedFolder(".GIT") && IsExcludedFolder(".Svn") && IsExcludedFolder(".git")
    ensures !IsExcludedFolder("git") && !IsExcludedFolder(".github") && !IsExcludedFolder("Precompiled")
  {
    assert !EqualsIgnoreCase("git", ".git") && !EqualsIgnoreCase("git", ".svn");
    assert Upper(".github"[0]) == '.';
  }

  /** The callbacks of ProcessFilesInFolder on `d`, found at `path`: subdirectories first, `d` last. */
  function Walk(d: Dir, path: Path): seq<Path>
    decreases d, 1
  {
    WalkChildren(d.children, path, d) + [path]
  }

  /** The callbacks for the subdirectories `ds` of `parent`, in order, skipping excluded ones. */
  function WalkChildren(ds: seq<Dir>, path: Path, parent: Dir): seq<Path>
    requires forall i :: 0 <= i < |ds| ==> ds[i] < parent
    decreases parent, 0, |ds|
  {
    if ds == [] then []
    else
      (if IsExcludedFolder(ds[0].name) then [] else Walk(ds[0], path + [ds[0].name]))
      + WalkChildren(ds[1..], path, parent)
  }

  /**
   * ProcessFilesInFolder: nothing when the folder does not exist; otherwise the walk of the
   * root. The root itself is never tested for exclusion.
   */
  function ProcessFilesInFolder(root: Option<Dir>): seq<Path>
  {
    if root.None? then [] else Walk(root.value, [root.value.name])
  }

  /** A missing root folder gets no callback at all. */
  lemma MissingRootNoCallbacks()
    ensures ProcessFilesInFolder(None) == []
  {
  }

  /** The root's callback comes last, whatever the root is called (".git" included). */
  lemma RootLast(root: Dir)
    ensures var calls := ProcessFilesInFolder(Some(root));
            |calls| >= 1 && calls[|calls| - 1] == [root.name]
  {
  }

  /** A root named ".git" with no subdirectories is still processed. */
  lemma ExcludedRootStillProcessed(children: seq<Dir>)
    ensures var calls := ProcessFilesInFolder(Some(Dir(".git", children)));
            |calls| >= 1 && calls[|calls| - 1] == [".git"]
  {
    RootLast(Dir(".git", children));
  }

  /** `q` lies strictly below `p`. */
  predicate Below(q: Path, p: Path)
  {
    |p| < |q| && q[..|p|] == p
  }

  /** Every callback is for a directory strictly below `path`. */
  predicate AllBelow(calls: seq<Path>, path: Path)
  {
    forall i :: 0 <= i < |calls| ==> Below(calls[i], path)
  }

  /** No callback passes, below `path`, through an excluded name. */
  predicate Pruned(calls: seq<Path>, path: Path)
  {
    forall i, k :: 0 <= i < |calls| && |path| <= k < |calls[i]| ==> !IsExcludedFolder(calls[i][k])
  }

  /**
   * Post-order: every callback before the last is for a directory strictly below `path`,
   * the last is for `path` itself, and no callback passes through an excluded name.
   */
  lemma {:induction false} WalkPostOrder(d: Dir, path: Path)
    ensures Walk(d, path)[|Walk(d, path)| - 1] == path
    ensures AllBelow(Walk(d, path)[..|Walk(d, path)| - 1], path)
    ensures Pruned(Walk(d, path), path)
    decreases d, 1
  {
    var below := WalkChildren(d.children, path, d);
    WalkChildrenBelow(d.children, path, d);
    assert Walk(d, path) == below + [path];
    assert Walk(d, path)[..|Walk(d, path)| - 1] == below;
  }

  /** A path at or below `path + [name]` is below `path`, through `name`. */
  lemma BelowThrough(q: Path, path: Path, name: string)
    requires q == path + [name] || Below(q, path + [name])
    ensures Below(q, path) && q[|path|] == name
  {
    var sub := path + [name];
    assert q[..|sub|] == sub;
    assert q[..|path|] == sub[..|path|];
  }

  /** The walk of a non-excluded child `c` stays below `path`, through `c`, and is pruned. */
  lemma {:induction false} ChildWalkBelow(c: Dir, path: Path)
    requires !IsExcludedFolder(c.name)
    ensures AllBelow(Walk(c, path + [c.name]), path)
    ensures Pruned(Walk(c, path + [c.name]), path)
    ensures Through(Walk(c, path + [c.name]), path, {c.name})
    decreases c, 2
  {
    var sub := path + [c.name];
    var first := Walk(c, sub);
    WalkPostOrder(c, sub);
    forall i | 0 <= i < |first|
      ensures Below(first[i], path) && first[i][|path|] == c.name
    {
      if i < |first| - 1 {
        assert first[i] == first[..|first| - 1][i];
      }
      BelowThrough(first[i], path, c.name);
    }
  }

  lemma {:induction false} WalkChildrenBelow(ds: seq<Dir>, path: Path, parent: Dir)
    requires forall i :: 0 <= i < |ds| ==> ds[i] < parent
    ensures AllBelow(WalkChildren(ds, path, parent), path)
    ensures Pruned(WalkChildren(ds, path, parent), path)
    decreases parent, 0, |ds|
  {
    if ds != [] {
      var c := ds[0];
      var rest := WalkChildren(ds[1..], path, parent);
      WalkChildrenBelow(ds[1..], path, parent);
      if !IsExcludedFolder(c.name) {
        var first := Walk(c, path + [c.name]);
        ChildWalkBelow(c, path);
        var calls := first + rest;
        assert calls == WalkChildren(ds, path, parent);
        assert forall i :: 0 <= i < |calls| ==> calls[i] == if i < |first| then first[i] else rest[i - |first|];
      } else {
        assert WalkChildren(ds, path, parent) == rest;
      }
    }
  }

  /** The number of directories the walk reaches: `d` and every non-excluded subtree. */
  function Reached(d: Dir): nat
    decreases d, 1
  {
    1 + ReachedChildren(d.children, d)
  }

  function ReachedChildren(ds: seq<Dir>, parent: Dir): nat
    requires forall i :: 0 <= i < |ds| ==> ds[i] < parent
    decreases parent, 0, |ds|
  {
    if ds == [] then 0
    else (if IsExcludedFolder(ds[0].name) then 0 else Reached(ds[0])) + ReachedChildren(ds[1..], parent)
  }

  /** One callback per reached directory. */
  lemma {:induction false} WalkCount(d: Dir, path: Path)
    ensures |Walk(d, path)| == Reached(d)
    decreases d, 1
  {
    WalkChildrenCount(d.children, path, d);
  }

  lemma {:induction false} WalkChildrenCount(ds: seq<Dir>, path: Path, parent: Dir)
    requires forall i :: 0 <= i < |ds| ==> ds[i] < parent
    ensures |WalkChildren(ds, path, parent)| == ReachedChildren(ds, parent)
    decreases parent, 0, |ds|
  {
    if ds != [] {
      WalkChildrenCount(ds[1..], path, parent);
      if !IsExcludedFolder(ds[0].name) {
        WalkCount(ds[0], path + [ds[0].name]);
      }
    }
  }

  /** Sibling directories have distinct names, at every level (a property of real file systems). */
  predicate DistinctNames(d: Dir)
    decreases d, 1
  {
    SiblingsDistinct(d.children) && DistinctNamesAll(d.children, d)
  }

  predicate SiblingsDistinct(ds: seq<Dir>)
  {
    forall i, j :: 0 <= i < j < |ds| ==> ds[i].name != ds[j].name
  }

  predicate DistinctNamesAll(ds: seq<Dir>, parent: Dir)
    requires forall i :: 0 <= i < |ds| ==> ds[i] < parent
    decreases parent, 0, |ds|
  {
    ds == [] || (DistinctNames(ds[0]) && DistinctNamesAll(ds[1..], parent))
  }

  /** No path is called back twice. */
  predicate NoRepeats(calls: seq<Path>)
  {
    forall i, j :: 0 <= i < j < |calls| ==> calls[i] != calls[j]
  }

  /** Every callback goes, just below `path`, through one of `names`. */
  predicate Through(calls: seq<Path>, path: Path, names: set<string>)
  {
    forall i :: 0 <= i < |calls| ==> |path| < |calls[i]| && calls[i][|path|] in names
  }

  /** With distinct sibling names, no directory is called back twice. */
  lemma {:induction false} WalkOnce(d: Dir, path: Path)
    requires DistinctNames(d)
    ensures NoRepeats(Walk(d, path))
    decreases d, 1
  {
    var calls := Walk(d, path);
    var below := WalkChildren(d.children, path, d);
    WalkChildrenOnce(d.children, path, d);
    WalkChildrenBelow(d.children, path, d);
    assert calls == below + [path];
    forall i, j | 0 <= i < j < |calls|
      ensures calls[i] != calls[j]
    {
      assert calls[i] == below[i];
      if j == |calls| - 1 {
        assert Below(below[i], path);
      } else {
        assert calls[j] == below[j];
      }
    }
  }

  /** The callbacks for distinct siblings are pairwise distinct. */
  lemma {:induction false} WalkChildrenOnce(ds: seq<Dir>, path: Path, parent: Dir)
    requires forall i :: 0 <= i < |ds| ==> ds[i] < parent
    requires SiblingsDistinct(ds) && DistinctNamesAll(ds, parent)
    ensures NoRepeats(WalkChildren(ds, path, parent))
    ensures Through(WalkChildren(ds, path, parent), path, NamesOf(ds))
    decreases parent, 0, |ds|
  {
    if ds != [] {
      var c := ds[0];
      var rest := WalkChildren(ds[1..], path, parent);
      WalkChildrenOnce(ds[1..], path, parent);
      NamesOfTail(ds);
      if !IsExcludedFolder(c.name) {
        var first := Walk(c, path + [c.name]);
        WalkOnce(c, path + [c.name]);
        ChildWalkBelow(c, path);
        ConcatDisjoint(first, rest, path, c.name, NamesOf(ds[1..]));
        assert first + rest == WalkChildren(ds, path, parent);
      } else {
        assert WalkChildren(ds, path, parent) == rest;
      }
    }
  }

  /**
   * Callbacks through one name followed by callbacks through other names repeat nothing
   * if neither part does.
   */
  lemma ConcatDisjoint(first: seq<Path>, rest: seq<Path>, path: Path, name: string, names: set<string>)
    requires NoRepeats(first) && NoRepeats(rest)
    requires Through(first, path, {name}) && Through(rest, path, names) && name !in names
    ensures NoRepeats(first + rest) && Through(first + rest, path, names + {name})
  {
    var calls := first + rest;
    forall i, j | 0 <= i < j < |calls| ensures calls[i] != calls[j] {
      if j < |first| {
        assert calls[i] == first[i] && calls[j] == first[j];
      } else if i < |first| {
        assert calls[i] == first[i] && calls[j] == rest[j - |first|];
        assert calls[i][|path|] == name;
      } else {
        assert calls[i] == rest[i - |first|] && calls[j] == rest[j - |first|];
      }
    }
    forall i | 0 <= i < |calls| ensures |path| < |calls[i]| && calls[i][|path|] in names + {name} {
      if i < |first| {
        assert calls[i] == first[i];
      } else {
        assert calls[i] == rest[i - |first|];
      }
    }
  }

  /** The names of a list of directories. */
  function NamesOf(ds: seq<Dir>): (names: set<string>)
    ensures forall i :: 0 <= i < |ds| ==> ds[i].name in names
    ensures forall n :: n in names ==> exists i :: 0 <= i < |ds| && ds[i].name == n
  {
    set i | 0 <= i < |ds| :: ds[i].name
  }

  /** With distinct names, the first name is not among the rest, and the rest are names of the whole. */
  lemma NamesOfTail(ds: seq<Dir>)
    requires ds != [] && SiblingsDistinct(ds)
    ensures ds[0].name !in NamesOf(ds[1..])
    ensures NamesOf(ds) == NamesOf(ds[1..]) + {ds[0].name}
  {
    forall n | n in NamesOf(ds[1..]) ensures n in NamesOf(ds) && n != ds[0].name {
      var i :| 0 <= i < |ds[1..]| && ds[1..][i].name == n;
      assert ds[i + 1].name == n;
    }
    forall n | n in NamesOf(ds) ensures n in NamesOf(ds[1..]) + {ds[0].name} {
      var i :| 0 <= i < |ds| && ds[i].name == n;
      if i > 0 {
        assert ds[1..][i - 1].name == n;
      }
    }
  }

  /**
   * The directories a walk of `d`, found at `path`, can reach: `d` itself, and whatever is
   * reachable from a subdirectory whose name is not excluded.
   */
  predicate Reachable(d: Dir, path: Path, q: Path)
    decreases d
  {
    q == path ||
    exists i :: 0 <= i < |d.children| && !IsExcludedFolder(d.children[i].name) &&
      Reachable(d.children[i], path + [d.children[i].name], q)
  }

  /** ProcessFilesInFolder calls back exactly the directories reachable from an existing root. */
  lemma ProcessedExactlyReachable(root: Dir, q: Path)
    ensures q in ProcessFilesInFolder(Some(root)) <==> Reachable(root, [root.name], q)
  {
    WalkReachesExactly(root, [root.name], q);
  }

  /** The walk calls back exactly the reachable directories. */
  lemma {:induction false} WalkReachesExactly(d: Dir, path: Path, q: Path)
    ensures q in Walk(d, path) <==> Reachable(d, path, q)
    decreases d, 1
  {
    WalkChildrenReachExactly(d.children, path, d, q);
  }

  lemma {:induction false} WalkChildrenReachExactly(ds: seq<Dir>, path: Path, parent: Dir, q: Path)
    requires forall i :: 0 <= i < |ds| ==> ds[i] < parent
    ensures q in WalkChildren(ds, path, parent) <==>
              exists i :: 0 <= i < |ds| && !IsExcludedFolder(ds[i].name) && Reachable(ds[i], path + [ds[i].name], q)
    decreases parent, 0, |ds|
  {
    if ds != [] {
      WalkChildrenReachExactly(ds[1..], path, parent, q);
      if !IsExcludedFolder(ds[0].name) {
        WalkReachesExactly(ds[0], path + [ds[0].name], q);
      }
      if exists i :: 0 <= i < |ds| && !IsExcludedFolder(ds[i].name) && Reachable(ds[i], path + [ds[i].name], q) {
        var i :| 0 <= i < |ds| && !IsExcludedFolder(ds[i].name) && Reachable(ds[i], path + [ds[i].name], q);
        if i > 0 {
          assert ds[1..][i - 1] == ds[i];
        }
      }
      if exists i :: 0 <= i < |ds[1..]| && !IsExcludedFolder(ds[1..][i].name) &&
                     Reachable(ds[1..][i], path + [ds[1..][i].name], q) {
        var i :| 0 <= i < |ds[1..]| && !IsExcludedFolder(ds[1..][i].name) &&
                 Reachable(ds[1..][i], path + [ds[1..][i].name], q);
        assert ds[i + 1] == ds[1..][i];
      }
    }
  }

  /** A directory's callback comes after the callbacks of every directory below it. */
  predicate PostOrder(calls: seq<Path>)
  {
    forall i, j :: 0 <= i < j < |calls| ==> !Below(calls[j], calls[i])
  }

  /** With distinct sibling names, no callback is for a directory below an earlier one. */
  lemma {:induction false} WalkGloballyPostOrder(d: Dir, path: Path)
    requires DistinctNames(d)
    ensures PostOrder(Walk(d, path))
    decreases d, 1
  {
    var calls := Walk(d, path);
    var below := WalkChildren(d.children, path, d);
    WalkChildrenPostOrder(d.children, path, d);
    WalkChildrenBelow(d.children, path, d);
    assert calls == below + [path];
    forall i, j | 0 <= i < j < |calls|
      ensures !Below(calls[j], calls[i])
    {
      assert calls[i] == below[i];
      if j == |calls| - 1 {
        assert Below(below[i], path);
      } else {
        assert calls[j] == below[j];
      }
    }
  }

  lemma {:induction false} WalkChildrenPostOrder(ds: seq<Dir>, path: Path, parent: Dir)
    requires forall i :: 0 <= i < |ds| ==> ds[i] < parent
    requires SiblingsDistinct(ds) && DistinctNamesAll(ds, parent)
    ensures PostOrder(WalkChildren(ds, path, parent))
    decreases parent, 0, |ds|
  {
    if ds != [] {
      var c := ds[0];
      var rest := WalkChildren(ds[1..], path, parent);
      WalkChildrenPostOrder(ds[1..], path, parent);
      WalkChildrenOnce(ds[1..], path, parent);
      NamesOfTail(ds);
      if !IsExcludedFolder(c.name) {
        var first := Walk(c, path + [c.name]);
        WalkGloballyPostOrder(c, path + [c.name]);
        ChildWalkBelow(c, path);
        ConcatPostOrder(first, rest, path, c.name, NamesOf(ds[1..]));
        assert first + rest == WalkChildren(ds, path, parent);
      } else {
        assert WalkChildren(ds, path, parent) == rest;
      }
    }
  }

  /** Callbacks through one name, then callbacks through other names: post-order if each part is. */
  lemma ConcatPostOrder(first: seq<Path>, rest: seq<Path>, path: Path, name: string, names: set<string>)
    requires PostOrder(first) && PostOrder(rest)
    requires Through(first, path, {name}) && Through(rest, path, names) && name !in names
    ensures PostOrder(first + rest)
  {
    var calls := first + rest;
    forall i, j | 0 <= i < j < |calls|
      ensures !Below(calls[j], calls[i])
    {
      if j < |first| {
        assert calls[i] == first[i] && calls[j] == first[j];
      } else if i < |first| {
        assert calls[i] == first[i] && calls[j] == rest[j - |first|];
        assert calls[i][|path|] != calls[j][|path|];
      } else {
        assert calls[i] == rest[i - |first|] && calls[j] == rest[j - |first|];
      }
    }
  }
}
