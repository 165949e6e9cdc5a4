/**
  `paths_dictionary`: crawl the project directory and map a key derived from
  each folder's path to that path.

  The directory tree under the parent directory is the input `tree` (what
  `os.walk` would find on disk) and `parent` is its path. The walk is
  top-down: a folder is reported, the caller prunes its list of
  subdirectories in place, and the walk descends only into what is left, in
  order. `PathsDictionary` runs that walk with an explicit stack, as
  `os.walk` does.
 */
module Paths {
  import opened Text

  /** `os.sep` on POSIX systems. */
  const Sep: char := '/'

  /** A directory on disk: its name and its subdirectories, in listing order. */
  datatype Folder = Folder(name: string, subfolders: seq<Folder>)

  /** One iteration of the walk: the path of a folder and the folder found there. */
  datatype Step = Step(root: string, folder: Folder)

  function Names(fs: seq<Folder>): (names: seq<string>)
    ensures |names| == |fs|
    ensures forall i :: 0 <= i < |fs| ==> names[i] == fs[i].name
  {
    if fs == [] then [] else [fs[0].name] + Names(fs[1..])
  }

  /**
    The filter `paths_dictionary` applies to `dirs`: a folder is kept
    unless its name starts with '.' or '_'.
   */
  predicate Keep(name: string) {
    !StartsWith(name, ".") && !StartsWith(name, "_")
  }

  /** `[d for d in dirs if not d.startswith(".") and not d.startswith("_")]`. */
  function KeptNames(dirs: seq<string>): (kept: seq<string>)
    ensures |kept| <= |dirs|
  {
    if dirs == [] then []
    else (if Keep(dirs[0]) then [dirs[0]] else []) + KeptNames(dirs[1..])
  }

  /** A subfolder survives the prune exactly when its name passes the filter. */
  lemma KeptSubfolders(subs: seq<Folder>)
    ensures forall i :: 0 <= i < |subs| ==> (subs[i].name in KeptNames(Names(subs)) <==> Keep(subs[i].name))
  {
    KeptNamesMembers(Names(subs));
    forall i | 0 <= i < |subs| ensures subs[i].name in Names(subs) {
      assert Names(subs)[i] == subs[i].name;
    }
  }

  /** The prune keeps exactly the names that pass the filter. */
  lemma {:induction false} KeptNamesMembers(dirs: seq<string>)
    ensures forall d :: d in KeptNames(dirs) <==> d in dirs && Keep(d)
  {
    if dirs != [] {
      KeptNamesMembers(dirs[1..]);
      assert dirs == [dirs[0]] + dirs[1..];
    }
  }

  /** `os.path.join(a, b)` for a name `b` that holds no separator. */
  function JoinPath(a: string, b: string): string {
    if a == [] || EndsWith(a, Sep) then a + b else a + [Sep] + b
  }

  /** The value stored for directory `dir` found under `root`: `os.path.join(root, dir)` followed by '/'. */
  function FolderPath(root: string, dir: string): string {
    JoinPath(root, dir) + "/"
  }

  /**
    The key `paths_dictionary` gives a folder: every occurrence of the parent path
    deleted, separators stripped from both ends, the others replaced by '_'.
   */
  function FolderKey(parent: string, folderPath: string): (key: string)
    ensures Sep !in key
  {
    ReplaceChar(StripChar(Remove(folderPath, parent), Sep), Sep, '_')
  }

  /**
    The key of the parent's own entry, written after each folder's
    subdirectories: its path with every separator deleted.
   */
  function ParentKey(parent: string): (key: string)
    ensures Sep !in key
  {
    RemoveCharLeavesNone(parent, Sep);
    Remove(parent, [Sep])
  }

  /**
    The values stored for the kept subdirectories `dirs` of `root`, in
    order, as the inner loop over `dirs` computes them.
   */
  function FolderPaths(root: string, dirs: seq<string>): (paths: seq<string>)
    ensures |paths| == |dirs|
  {
    if dirs == [] then [] else [FolderPath(root, dirs[0])] + FolderPaths(root, dirs[1..])
  }

  lemma {:induction false} FolderPathsAt(root: string, dirs: seq<string>, i: int)
    requires 0 <= i < |dirs|
    ensures FolderPaths(root, dirs)[i] == FolderPath(root, dirs[i])
  {
    var rest := FolderPaths(root, dirs[1..]);
    assert FolderPaths(root, dirs) == [FolderPath(root, dirs[0])] + rest;
    if i > 0 {
      FolderPathsAt(root, dirs[1..], i - 1);
      assert dirs[1..][i - 1] == dirs[i];
    }
  }

  /** The key function of the walk under `parent`. */
  function KeyOf(parent: string): string -> string {
    folderPath => FolderKey(parent, folderPath)
  }

  /** The (key, value) pairs written for `paths`, in order. */
  function Writes(key: string -> string, paths: seq<string>): (writes: seq<(string, string)>)
    ensures |writes| == |paths|
  {
    if paths == [] then []
    else Writes(key, paths[..|paths| - 1]) + [(key(paths[|paths| - 1]), paths[|paths| - 1])]
  }

  /** The keys `writes` writes to. */
  function WrittenKeys(writes: seq<(string, string)>): (keys: set<string>)
    ensures forall i :: 0 <= i < |writes| ==> writes[i].0 in keys
  {
    if writes == [] then {}
    else WrittenKeys(writes[..|writes| - 1]) + {writes[|writes| - 1].0}
  }

  /** No write after `writes[i]` is to the same key. */
  predicate IsLastWrite(writes: seq<(string, string)>, i: int)
    requires 0 <= i < |writes|
  {
    forall j :: i < j < |writes| ==> writes[j].0 != writes[i].0
  }

  /** `m[k] = v` for every pair `(k, v)` of `writes`, in order, as the inner loop over `dirs` stores them. */
  function Overwrite(m: map<string, string>, writes: seq<(string, string)>): map<string, string> {
    if writes == [] then m
    else Overwrite(m, writes[..|writes| - 1])[writes[|writes| - 1].0 := writes[|writes| - 1].1]
  }

  /**
    After the writes, the keys are the old ones and those written; each key
    written holds the value of its last write, and every other entry is left
    as it was.
   */
  lemma {:induction false} OverwriteSpec(m: map<string, string>, writes: seq<(string, string)>)
    ensures Overwrite(m, writes).Keys == m.Keys + WrittenKeys(writes)
    ensures forall k :: k in m && k !in WrittenKeys(writes) ==> Overwrite(m, writes)[k] == m[k]
    ensures forall i :: 0 <= i < |writes| && IsLastWrite(writes, i) ==> Overwrite(m, writes)[writes[i].0] == writes[i].1
  {
    if writes != [] {
      var n := |writes| - 1;
      OverwriteSpec(m, writes[..n]);
      var r := Overwrite(m, writes);
      forall i | 0 <= i < n && IsLastWrite(writes, i) ensures r[writes[i].0] == writes[i].1 {
        assert writes[..n][i] == writes[i];
        assert IsLastWrite(writes[..n], i);
        assert writes[n].0 != writes[i].0;
      }
    }
  }

  /**
    What one iteration of the `os.walk` loop body (prune, store each folder, store the parent) does to the
    dictionary, keying each folder's path with `key`.
   */
  function RecordStep(key: string -> string, m: map<string, string>, parent: string, step: Step): map<string, string> {
    var paths := FolderPaths(step.root, KeptNames(Names(step.folder.subfolders)));
    Overwrite(m, Writes(key, paths))[ParentKey(parent) := parent + "/"]
  }

  /** The dictionary after the loop body has run on `steps`, in order. */
  function Record(key: string -> string, m: map<string, string>, parent: string, steps: seq<Step>): map<string, string> {
    if steps == [] then m
    else RecordStep(key, Record(key, m, parent, steps[..|steps| - 1]), parent, steps[|steps| - 1])
  }

  /** The walk of `f` found at `root`: `f` itself, then the walks of its kept subfolders in order. */
  function Walk(root: string, f: Folder): (steps: seq<Step>)
    ensures steps != [] && steps[0] == Step(root, f)
    decreases f, 1
  {
    [Step(root, f)] + WalkEach(root, f.subfolders)
  }

  function WalkEach(root: string, fs: seq<Folder>): seq<Step>
    decreases fs, 0
  {
    if fs == [] then []
    else
      (if Keep(fs[0].name) then Walk(JoinPath(root, fs[0].name), fs[0]) else [])
      + WalkEach(root, fs[1..])
  }

  /** The steps still to come for a stack of folders, the top (last) first. */
  function Pending(stack: seq<Step>): seq<Step> {
    if stack == [] then []
    else Walk(stack[|stack| - 1].root, stack[|stack| - 1].folder) + Pending(stack[..|stack| - 1])
  }

  /** The dictionary `paths_dictionary` returns for the tree `tree` found at `parent`. */
  function PathsDict(parent: string, tree: Folder): map<string, string> {
    Record(KeyOf(parent), map[], parent, Walk(parent, tree))
  }

  /** Pushing a step onto the stack puts its whole walk first. */
  lemma PendingPush(stack: seq<Step>, top: Step)
    ensures Pending(stack + [top]) == Walk(top.root, top.folder) + Pending(stack)
  {
    assert (stack + [top])[..|stack|] == stack;
  }

  /** The walks of `fs[i..]`: that of `fs[i]` if it is kept, then those of the rest. */
  lemma WalkEachFrom(root: string, fs: seq<Folder>, i: int)
    requires 0 <= i < |fs|
    ensures WalkEach(root, fs[i..])
      == (if Keep(fs[i].name) then Walk(JoinPath(root, fs[i].name), fs[i]) else []) + WalkEach(root, fs[i + 1..])
  {
    assert fs[i..][0] == fs[i] && fs[i..][1..] == fs[i + 1..];
  }

  /** One step more of the loop body, as `Record` sees it. */
  lemma RecordSnoc(key: string -> string, m: map<string, string>, parent: string, steps: seq<Step>, step: Step)
    ensures Record(key, m, parent, steps + [step]) == RecordStep(key, Record(key, m, parent, steps), parent, step)
  {
    assert (steps + [step])[..|steps|] == steps;
  }

  /**
    What `os.walk` does after the caller has pruned `dirs` in place: it
    pushes the folders of `subs` still named in `dirs`, the first on top.
   */
  method Descend(stack: seq<Step>, root: string, subs: seq<Folder>, dirs: seq<string>) returns (pushed: seq<Step>)
    requires forall i :: 0 <= i < |subs| ==> (subs[i].name in dirs <==> Keep(subs[i].name))
    ensures Pending(pushed) == WalkEach(root, subs) + Pending(stack)
  {
    pushed := stack;
    var i := |subs|;
    assert subs[i..] == [];
    while i > 0
      invariant 0 <= i <= |subs|
      invariant Pending(pushed) == WalkEach(root, subs[i..]) + Pending(stack)
    {
      i := i - 1;
      var sub := subs[i];
      WalkEachFrom(root, subs, i);
      if sub.name in dirs {
        var next := Step(JoinPath(root, sub.name), sub);
        PendingPush(pushed, next);
        Associate(Walk(next.root, next.folder), WalkEach(root, subs[i + 1..]), Pending(stack));
        pushed := pushed + [next];
      }
    }
    assert subs[0..] == subs;
  }

  lemma WritesSnoc(key: string -> string, paths: seq<string>, j: int)
    requires 0 <= j < |paths|
    ensures Writes(key, paths[..j + 1]) == Writes(key, paths[..j]) + [(key(paths[j]), paths[j])]
  {
    assert paths[..j + 1][..j] == paths[..j];
  }

  lemma OverwriteSnoc(m: map<string, string>, writes: seq<(string, string)>, w: (string, string))
    ensures Overwrite(m, writes + [w]) == Overwrite(m, writes)[w.0 := w.1]
  {
    assert (writes + [w])[..|writes|] == writes;
  }

  /**
    The body of the walk loop for one folder at `root` whose kept
    subdirectories are `dirs`: the inner loop over `dirs`, then the parent's entry.
   */
  method RecordFolders(m: map<string, string>, parent: string, root: string, dirs: seq<string>)
    returns (pathsDict: map<string, string>)
    ensures pathsDict == Overwrite(m, Writes(KeyOf(parent), FolderPaths(root, dirs)))[ParentKey(parent) := parent + "/"]
  {
    ghost var paths := FolderPaths(root, dirs);
    pathsDict := m;
    for j := 0 to |dirs|
      invariant pathsDict == Overwrite(m, Writes(KeyOf(parent), paths[..j]))
    {
      var folderPath := FolderPath(root, dirs[j]);
      var dictKey := FolderKey(parent, folderPath);
      FolderPathsAt(root, dirs, j);
      WritesSnoc(KeyOf(parent), paths, j);
      OverwriteSnoc(m, Writes(KeyOf(parent), paths[..j]), (dictKey, folderPath));
      pathsDict := pathsDict[dictKey := folderPath];
    }
    assert paths[..|dirs|] == paths;
    pathsDict := pathsDict[ParentKey(parent) := parent + "/"];
  }

  /** The function itself: the walk loop with its in-place prune and the dictionary updates. */
  method PathsDictionary(parent: string, tree: Folder) returns (pathsDict: map<string, string>)
    ensures pathsDict == PathsDict(parent, tree)
  {
    pathsDict := map[];
    var stack := [Step(parent, tree)];
    ghost var done: seq<Step> := [];
    assert Pending(stack) == Walk(parent, tree) by { PendingPush([], Step(parent, tree)); }
    while stack != []
      invariant done + Pending(stack) == Walk(parent, tree)
      invariant pathsDict == Record(KeyOf(parent), map[], parent, done)
      decreases |Pending(stack)|
    {
      var step := stack[|stack| - 1];
      var rest := stack[..|stack| - 1];
      ghost var below := WalkEach(step.root, step.folder.subfolders);
      assert Pending(stack) == [step] + below + Pending(rest);
      Associate([step], below, Pending(rest));
      Associate(done, [step], below + Pending(rest));
      stack := rest;
      var root := step.root;
      var subs := step.folder.subfolders;
      var dirs := KeptNames(Names(subs));
      pathsDict := RecordFolders(pathsDict, parent, root, dirs);
      RecordSnoc(KeyOf(parent), map[], parent, done, step);
      done := done + [step];
      // the walk goes on into the folders left in `dirs`, first one on top
      KeptSubfolders(subs);
      stack := Descend(rest, root, subs, dirs);
    }
    assert done + [] == done;
  }

  // ---------------------------------------------------------------------
  // Which folders the walk visits

  /**
    Following the kept subfolder names `names` down from `f`, found at
    `root`, leads to the walk step `s`.
   */
  predicate Visits(root: string, f: Folder, names: seq<string>, s: Step)
    decreases |names|
  {
    if names == [] then s == Step(root, f)
    else
      exists i ::
        0 <= i < |f.subfolders| && f.subfolders[i].name == names[0] && Keep(names[0])
        && Visits(JoinPath(root, names[0]), f.subfolders[i], names[1..], s)
  }

  /** Every step of the walk is reached through kept names. */
  lemma {:induction false} WalkSound(root: string, f: Folder, s: Step)
    requires s in Walk(root, f)
    ensures exists names :: Visits(root, f, names, s)
    decreases f, 1
  {
    if s != Step(root, f) {
      var subs := f.subfolders;
      var i, names := WalkEachSound(root, subs, s);
      assert Visits(root, f, [subs[i].name] + names, s) by {
        assert ([subs[i].name] + names)[1..] == names;
      }
    } else {
      assert Visits(root, f, [], s);
    }
  }

  lemma {:induction false} WalkEachSound(root: string, fs: seq<Folder>, s: Step) returns (i: int, names: seq<string>)
    requires s in WalkEach(root, fs)
    ensures 0 <= i < |fs| && Keep(fs[i].name) && Visits(JoinPath(root, fs[i].name), fs[i], names, s)
    decreases fs, 0
  {
    if Keep(fs[0].name) && s in Walk(JoinPath(root, fs[0].name), fs[0]) {
      WalkSound(JoinPath(root, fs[0].name), fs[0], s);
      i := 0;
      names :| Visits(JoinPath(root, fs[0].name), fs[0], names, s);
    } else {
      i, names := WalkEachSound(root, fs[1..], s);
      assert fs[1..][i] == fs[i + 1];
      i := i + 1;
    }
  }

  /** Every folder reached through kept names is a step of the walk. */
  lemma {:induction false} WalkComplete(root: string, f: Folder, names: seq<string>, s: Step)
    requires Visits(root, f, names, s)
    ensures s in Walk(root, f)
    decreases |names|, 0, 0
  {
    if names != [] {
      var i :| 0 <= i < |f.subfolders| && f.subfolders[i].name == names[0] && Keep(names[0])
        && Visits(JoinPath(root, names[0]), f.subfolders[i], names[1..], s);
      WalkEachComplete(root, f.subfolders, i, names[1..], s);
    }
  }

  lemma {:induction false} WalkEachComplete(root: string, fs: seq<Folder>, i: int, names: seq<string>, s: Step)
    requires 0 <= i < |fs| && Keep(fs[i].name)
    requires Visits(JoinPath(root, fs[i].name), fs[i], names, s)
    ensures s in WalkEach(root, fs)
    decreases |names|, 1, |fs|
  {
    if i == 0 {
      WalkComplete(JoinPath(root, fs[0].name), fs[0], names, s);
    } else {
      assert fs[1..][i - 1] == fs[i];
      WalkEachComplete(root, fs[1..], i - 1, names, s);
    }
  }

  /** A walk never passes through a folder whose name starts with '.' or '_' (the `dirs[:]` prune). */
  lemma {:induction false} VisitsOnlyKept(root: string, f: Folder, names: seq<string>, s: Step)
    requires Visits(root, f, names, s)
    ensures forall k :: 0 <= k < |names| ==> Keep(names[k])
    decreases |names|
  {
    if names != [] {
      var i :| 0 <= i < |f.subfolders| && f.subfolders[i].name == names[0] && Keep(names[0])
        && Visits(JoinPath(root, names[0]), f.subfolders[i], names[1..], s);
      VisitsOnlyKept(JoinPath(root, names[0]), f.subfolders[i], names[1..], s);
      forall k | 1 <= k < |names| ensures Keep(names[k]) {
        assert names[k] == names[1..][k - 1];
      }
    }
  }

  /** The walk goes on into each kept subfolder of a folder it reaches. */
  lemma {:induction false} VisitsExtend(root: string, f: Folder, names: seq<string>, s: Step, j: int)
    requires Visits(root, f, names, s)
    requires 0 <= j < |s.folder.subfolders| && Keep(s.folder.subfolders[j].name)
    ensures Visits(root, f, names + [s.folder.subfolders[j].name],
      Step(JoinPath(s.root, s.folder.subfolders[j].name), s.folder.subfolders[j]))
    decreases |names|
  {
    var sub := s.folder.subfolders[j];
    var next := Step(JoinPath(s.root, sub.name), sub);
    if names == [] {
      assert Visits(JoinPath(root, sub.name), sub, [], next);
      assert [sub.name][1..] == [];
    } else {
      var i :| 0 <= i < |f.subfolders| && f.subfolders[i].name == names[0] && Keep(names[0])
        && Visits(JoinPath(root, names[0]), f.subfolders[i], names[1..], s);
      VisitsExtend(JoinPath(root, names[0]), f.subfolders[i], names[1..], s, j);
      assert (names + [sub.name])[1..] == names[1..] + [sub.name];
    }
  }

  /** The walk is closed under descending into kept subfolders. */
  lemma WalkDescends(root: string, f: Folder, s: Step, j: int)
    requires s in Walk(root, f)
    requires 0 <= j < |s.folder.subfolders| && Keep(s.folder.subfolders[j].name)
    ensures Step(JoinPath(s.root, s.folder.subfolders[j].name), s.folder.subfolders[j]) in Walk(root, f)
  {
    WalkSound(root, f, s);
    var names :| Visits(root, f, names, s);
    VisitsExtend(root, f, names, s, j);
    WalkComplete(root, f, names + [s.folder.subfolders[j].name],
      Step(JoinPath(s.root, s.folder.subfolders[j].name), s.folder.subfolders[j]));
  }

  // ---------------------------------------------------------------------
  // What the dictionary holds

  /** The `i`-th write stores `paths[i]` under its key. */
  lemma {:induction false} WritesAt(key: string -> string, paths: seq<string>, i: int)
    requires 0 <= i < |paths|
    ensures Writes(key, paths)[i] == (key(paths[i]), paths[i])
    decreases |paths|
  {
    var n := |paths| - 1;
    if i < n {
      WritesAt(key, paths[..n], i);
    }
  }

  lemma {:induction false} WrittenKeysWitness(writes: seq<(string, string)>, k: string) returns (i: int)
    requires k in WrittenKeys(writes)
    ensures 0 <= i < |writes| && writes[i].0 == k
    decreases |writes|
  {
    var n := |writes| - 1;
    if k == writes[n].0 {
      i := n;
    } else {
      i := WrittenKeysWitness(writes[..n], k);
    }
  }

  /** Each entry after the writes is either an old entry or one of the writes. */
  lemma {:induction false} OverwriteSource(m: map<string, string>, writes: seq<(string, string)>, k: string)
    returns (i: int)
    requires k in Overwrite(m, writes)
    ensures (i == -1 && k in m && Overwrite(m, writes)[k] == m[k])
      || (0 <= i < |writes| && writes[i] == (k, Overwrite(m, writes)[k]))
    decreases |writes|
  {
    if writes == [] {
      i := -1;
    } else {
      var n := |writes| - 1;
      if k == writes[n].0 {
        i := n;
      } else {
        i := OverwriteSource(m, writes[..n], k);
      }
    }
  }

  /** The keys written by one step hold no separator when no key does. */
  lemma WritesKeysNoSep(key: string -> string, paths: seq<string>)
    requires forall p :: Sep !in key(p)
    ensures forall k :: k in WrittenKeys(Writes(key, paths)) ==> Sep !in k
  {
    var writes := Writes(key, paths);
    forall k | k in WrittenKeys(writes) ensures Sep !in k {
      var i := WrittenKeysWitness(writes, k);
      WritesAt(key, paths, i);
    }
  }

  lemma {:induction false} RecordKeysNoSep(key: string -> string, parent: string, steps: seq<Step>)
    requires forall p :: Sep !in key(p)
    ensures forall k :: k in Record(key, map[], parent, steps) ==> Sep !in k
    decreases |steps|
  {
    if steps != [] {
      var n := |steps| - 1;
      var prev := Record(key, map[], parent, steps[..n]);
      var paths := FolderPaths(steps[n].root, KeptNames(Names(steps[n].folder.subfolders)));
      RecordKeysNoSep(key, parent, steps[..n]);
      OverwriteSpec(prev, Writes(key, paths));
      WritesKeysNoSep(key, paths);
    }
  }

  /** One step keeps every key already present. */
  lemma RecordStepKeepsKeys(key: string -> string, m: map<string, string>, parent: string, step: Step)
    ensures m.Keys <= RecordStep(key, m, parent, step).Keys
  {
    var paths := FolderPaths(step.root, KeptNames(Names(step.folder.subfolders)));
    OverwriteSpec(m, Writes(key, paths));
  }

  /** One step writes a key for each kept subfolder of its folder. */
  lemma RecordStepWritesKey(key: string -> string, m: map<string, string>, parent: string, step: Step, d: string)
    requires d in KeptNames(Names(step.folder.subfolders))
    ensures key(FolderPath(step.root, d)) in RecordStep(key, m, parent, step)
  {
    var dirs := KeptNames(Names(step.folder.subfolders));
    var paths := FolderPaths(step.root, dirs);
    var writes := Writes(key, paths);
    OverwriteSpec(m, writes);
    var i :| 0 <= i < |dirs| && dirs[i] == d;
    WritesAt(key, paths, i);
    FolderPathsAt(step.root, dirs, i);
    assert writes[i].0 in WrittenKeys(writes);
  }

  lemma {:induction false} RecordHasKey(key: string -> string, parent: string, steps: seq<Step>, j: int, d: string)
    requires 0 <= j < |steps| && d in KeptNames(Names(steps[j].folder.subfolders))
    ensures key(FolderPath(steps[j].root, d)) in Record(key, map[], parent, steps)
    decreases |steps|
  {
    var n := |steps| - 1;
    var prev := Record(key, map[], parent, steps[..n]);
    if j < n {
      assert steps[..n][j] == steps[j];
      RecordHasKey(key, parent, steps[..n], j, d);
      RecordStepKeepsKeys(key, prev, parent, steps[n]);
    } else {
      assert j == n;
      RecordStepWritesKey(key, prev, parent, steps[j], d);
    }
  }

  /** Each value stored is the parent's path or the path of a kept subfolder of some step. */
  lemma {:induction false} RecordValueSource(key: string -> string, parent: string, steps: seq<Step>, k: string)
    returns (j: int, d: string)
    requires k in Record(key, map[], parent, steps)
    ensures 0 <= j < |steps|
    ensures Record(key, map[], parent, steps)[k] == parent + "/"
      || (d in KeptNames(Names(steps[j].folder.subfolders))
          && Record(key, map[], parent, steps)[k] == FolderPath(steps[j].root, d))
    decreases |steps|
  {
    var n := |steps| - 1;
    var prev := Record(key, map[], parent, steps[..n]);
    var dirs := KeptNames(Names(steps[n].folder.subfolders));
    var paths := FolderPaths(steps[n].root, dirs);
    var writes := Writes(key, paths);
    j, d := n, "";
    if k != ParentKey(parent) {
      var i := OverwriteSource(prev, writes, k);
      if i == -1 {
        j, d := RecordValueSource(key, parent, steps[..n], k);
        assert steps[..n][j] == steps[j];
      } else {
        WritesAt(key, paths, i);
        FolderPathsAt(steps[n].root, dirs, i);
        d := dirs[i];
      }
    }
  }

  /** The parent's own entry maps its key to its path followed by '/'. */
  lemma PathsDictParentEntry(parent: string, tree: Folder)
    ensures ParentKey(parent) in PathsDict(parent, tree)
    ensures PathsDict(parent, tree)[ParentKey(parent)] == parent + "/"
  {
  }

  /** No key holds a separator. */
  lemma PathsDictKeysNoSep(parent: string, tree: Folder)
    ensures forall k :: k in PathsDict(parent, tree) ==> Sep !in k
  {
    assert forall p :: Sep !in KeyOf(parent)(p);
    RecordKeysNoSep(KeyOf(parent), parent, Walk(parent, tree));
  }

  /** Every kept subfolder of a folder the walk reaches has an entry under its key. */
  lemma PathsDictKeys(parent: string, tree: Folder, s: Step, i: int)
    requires s in Walk(parent, tree)
    requires 0 <= i < |s.folder.subfolders| && Keep(s.folder.subfolders[i].name)
    ensures FolderKey(parent, FolderPath(s.root, s.folder.subfolders[i].name)) in PathsDict(parent, tree)
  {
    var steps := Walk(parent, tree);
    var j :| 0 <= j < |steps| && steps[j] == s;
    var subs := s.folder.subfolders;
    KeptSubfolders(subs);
    RecordHasKey(KeyOf(parent), parent, steps, j, subs[i].name);
  }

  /** Every value is the path, followed by '/', of a folder the walk reaches. */
  lemma PathsDictValues(parent: string, tree: Folder, k: string)
    requires k in PathsDict(parent, tree)
    ensures exists t :: t in Walk(parent, tree) && PathsDict(parent, tree)[k] == t.root + "/"
  {
    var steps := Walk(parent, tree);
    var j, d := RecordValueSource(KeyOf(parent), parent, steps, k);
    if PathsDict(parent, tree)[k] == parent + "/" {
      assert steps[0] == Step(parent, tree);
    } else {
      var subs := steps[j].folder.subfolders;
      KeptNamesMembers(Names(subs));
      var i :| 0 <= i < |subs| && Names(subs)[i] == d;
      WalkDescends(parent, tree, steps[j], i);
      assert Step(JoinPath(steps[j].root, d), subs[i]) in steps;
    }
  }

  /** Every key other than the parent's is the key of the path stored under it. */
  lemma {:induction false} RecordPairs(key: string -> string, parent: string, steps: seq<Step>, k: string)
    requires k in Record(key, map[], parent, steps)
    ensures k == ParentKey(parent) || k == key(Record(key, map[], parent, steps)[k])
    decreases |steps|
  {
    var n := |steps| - 1;
    var prev := Record(key, map[], parent, steps[..n]);
    var paths := FolderPaths(steps[n].root, KeptNames(Names(steps[n].folder.subfolders)));
    var writes := Writes(key, paths);
    if k != ParentKey(parent) {
      var i := OverwriteSource(prev, writes, k);
      if i == -1 {
        RecordPairs(key, parent, steps[..n], k);
      } else {
        WritesAt(key, paths, i);
      }
    }
  }

  /**
    Keys and values belong together: every entry but the parent's is stored
    under the key computed from its own path.
   */
  lemma PathsDictPairs(parent: string, tree: Folder, k: string)
    requires k in PathsDict(parent, tree)
    ensures k == ParentKey(parent) || k == FolderKey(parent, PathsDict(parent, tree)[k])
  {
    RecordPairs(KeyOf(parent), parent, Walk(parent, tree), k);
  }

  // ---------------------------------------------------------------------
  // The key of a folder: what the code computes and what it is meant to

  /** A directory name as a file system allows it: non-empty and free of separators. */
  predicate ValidName(name: string) {
    name != [] && Sep !in name
  }

  /** Every folder name in the tree is a valid directory name. */
  predicate ValidTree(f: Folder)
    decreases f
  {
    forall i :: 0 <= i < |f.subfolders| ==> ValidName(f.subfolders[i].name) && ValidTree(f.subfolders[i])
  }

  /** `os.path.join(root, *names)`. */
  function JoinAll(root: string, names: seq<string>): string
    decreases |names|
  {
    if names == [] then root else JoinAll(JoinPath(root, names[0]), names[1..])
  }

  /** `c.join(names)`. */
  function JoinWith(names: seq<string>, c: char): string
    decreases |names|
  {
    if names == [] then []
    else if |names| == 1 then names[0]
    else names[0] + [c] + JoinWith(names[1..], c)
  }

  /** The separator `os.path.join` puts after `root` before the next name. */
  function Lead(root: string): string {
    if root == [] || EndsWith(root, Sep) then [] else [Sep]
  }

  /** The step a walk reaches through `names` sits at the path joined from them. */
  lemma {:induction false} VisitsRoot(root: string, f: Folder, names: seq<string>, s: Step)
    requires Visits(root, f, names, s)
    ensures s.root == JoinAll(root, names)
    decreases |names|
  {
    if names != [] {
      var i :| 0 <= i < |f.subfolders| && f.subfolders[i].name == names[0] && Keep(names[0])
        && Visits(JoinPath(root, names[0]), f.subfolders[i], names[1..], s);
      VisitsRoot(JoinPath(root, names[0]), f.subfolders[i], names[1..], s);
    }
  }

  /** In a valid tree, the names a walk passes through are valid, and so is the folder it reaches. */
  lemma {:induction false} VisitsValid(root: string, f: Folder, names: seq<string>, s: Step)
    requires ValidTree(f) && Visits(root, f, names, s)
    ensures ValidTree(s.folder)
    ensures forall k :: 0 <= k < |names| ==> ValidName(names[k])
    decreases |names|
  {
    if names != [] {
      var i :| 0 <= i < |f.subfolders| && f.subfolders[i].name == names[0] && Keep(names[0])
        && Visits(JoinPath(root, names[0]), f.subfolders[i], names[1..], s);
      var sub := f.subfolders[i];
      assert ValidName(sub.name) && ValidTree(sub);
      VisitsValid(JoinPath(root, names[0]), sub, names[1..], s);
      forall k | 1 <= k < |names| ensures ValidName(names[k]) {
        assert names[k] == names[1..][k - 1];
      }
    }
  }

  lemma {:induction false} JoinAllSnoc(root: string, names: seq<string>, d: string)
    ensures JoinAll(root, names + [d]) == JoinPath(JoinAll(root, names), d)
    decreases |names|
  {
    if names == [] {
      assert [d][1..] == [];
    } else {
      assert (names + [d])[1..] == names[1..] + [d];
      JoinAllSnoc(JoinPath(root, names[0]), names[1..], d);
    }
  }

  /** A join of valid names neither starts nor ends with the separator. */
  lemma {:induction false} JoinWithEnds(names: seq<string>, c: char)
    requires names != [] && forall k :: 0 <= k < |names| ==> ValidName(names[k])
    ensures var r := JoinWith(names, c); r != [] && r[0] != Sep && r[|r| - 1] != Sep
    decreases |names|
  {
    var first := names[0];
    assert ValidName(first);
    assert first[0] in first;
    if |names| > 1 {
      forall k | 0 <= k < |names[1..]| ensures ValidName(names[1..][k]) {
        assert names[1..][k] == names[k + 1];
      }
      JoinWithEnds(names[1..], c);
    } else {
      assert first[|first| - 1] in first;
    }
  }

  /** `os.path.join(root, *names)` is `root`, one separator if `root` needs it, and the names joined by it. */
  lemma {:induction false} JoinAllShape(root: string, names: seq<string>)
    requires names != [] && forall k :: 0 <= k < |names| ==> ValidName(names[k])
    ensures JoinAll(root, names) == root + Lead(root) + JoinWith(names, Sep)
    decreases |names|
  {
    var first, rest := names[0], names[1..];
    var next := JoinPath(root, first);
    assert next == root + Lead(root) + first;
    assert JoinAll(root, names) == JoinAll(next, rest);
    if rest == [] {
      assert JoinWith(names, Sep) == first;
    } else {
      forall k | 0 <= k < |rest| ensures ValidName(rest[k]) {
        assert rest[k] == names[k + 1];
      }
      JoinAllShape(next, rest);
      NoSepAtEnd(root + Lead(root), first);
      Associate(root + Lead(root), first, [Sep]);
      Associate(root + Lead(root), first + [Sep], JoinWith(rest, Sep));
    }
  }

  /** After a valid name, `os.path.join` adds a separator. */
  lemma NoSepAtEnd(prefix: string, name: string)
    requires ValidName(name)
    ensures Lead(prefix + name) == [Sep]
  {
    var s := prefix + name;
    assert s[|s| - 1] == name[|name| - 1];
    assert name[|name| - 1] in name;
  }

  /** `s.replace(a, b)` works piece by piece. */
  lemma {:induction false} ReplaceCharConcat(x: string, y: string, a: char, b: char)
    ensures ReplaceChar(x + y, a, b) == ReplaceChar(x, a, b) + ReplaceChar(y, a, b)
    decreases |x|
  {
    if x == [] {
      assert x + y == y;
    } else {
      assert (x + y)[0] == x[0] && (x + y)[1..] == x[1..] + y;
      ReplaceCharConcat(x[1..], y, a, b);
    }
  }

  /** Replacing a character that does not occur changes nothing. */
  lemma ReplaceAbsent(x: string, a: char, b: char)
    requires a !in x
    ensures ReplaceChar(x, a, b) == x
  {
    var r := ReplaceChar(x, a, b);
    forall i | 0 <= i < |x| ensures r[i] == x[i] {
      assert x[i] in x;
    }
  }

  /** Joining valid names with the separator and replacing it by '_' joins them with '_'. */
  lemma {:induction false} ReplaceJoin(names: seq<string>)
    requires forall k :: 0 <= k < |names| ==> ValidName(names[k])
    ensures ReplaceChar(JoinWith(names, Sep), Sep, '_') == JoinWith(names, '_')
    decreases |names|
  {
    if names != [] {
      assert ValidName(names[0]);
      ReplaceAbsent(names[0], Sep, '_');
      if |names| > 1 {
        var rest := names[1..];
        forall k | 0 <= k < |rest| ensures ValidName(rest[k]) {
          assert rest[k] == names[k + 1];
        }
        ReplaceJoin(rest);
        ReplaceCharConcat(names[0] + [Sep], JoinWith(rest, Sep), Sep, '_');
        ReplaceCharConcat(names[0], [Sep], Sep, '_');
      }
    }
  }

  /**
    The key the source's own comment on the deletion describes: the parent's path deleted
    from the front of the folder's path (once), separators stripped from
    both ends, the others replaced by '_'.
   */
  function IntendedFolderKey(parent: string, folderPath: string): (key: string)
    ensures Sep !in key
  {
    var relative := if StartsWith(folderPath, parent) then folderPath[|parent|..] else folderPath;
    ReplaceChar(StripChar(relative, Sep), Sep, '_')
  }

  /**
    The intended key of the folder reached through `names` below `parent`
    is those names joined by '_'.
   */
  lemma IntendedKeyJoinsNames(parent: string, names: seq<string>)
    requires names != [] && forall k :: 0 <= k < |names| ==> ValidName(names[k])
    ensures IntendedFolderKey(parent, JoinAll(parent, names) + "/") == JoinWith(names, '_')
  {
    var joined := JoinWith(names, Sep);
    var relative := Lead(parent) + joined + "/";
    var path := JoinAll(parent, names) + "/";
    JoinAllShape(parent, names);
    assert path == parent + relative;
    assert StartsWith(path, parent) && path[|parent|..] == relative;
    JoinWithEnds(names, Sep);
    StripRelative(parent, joined);
    ReplaceJoin(names);
  }

  /** Stripping the separators around a path relative to `parent` leaves the names joined. */
  lemma StripRelative(parent: string, joined: string)
    requires joined != [] && joined[0] != Sep && joined[|joined| - 1] != Sep
    ensures StripChar(Lead(parent) + joined + "/", Sep) == joined
  {
    StripByIdentity(Lead(parent), joined, "/", x => x == Sep);
  }

  /**
    Below the parent "/p", the folder "x/pq" and the folder "xq" get the
    same key: deleting every "/p" from "/p/x/pq/" leaves "/xq/".
   */
  lemma KeyCollision()
    ensures FolderKey("/p", "/p/x/pq/") == "xq"
    ensures FolderKey("/p", "/p/xq/") == "xq"
  {
    RemoveParentNested();
    RemoveParentSibling();
    StripXq();
  }

  lemma RemoveParentNested()
    ensures Remove("/p/x/pq/", "/p") == "/xq/"
  {
    assert RemoveAll("/", "/p") == "/";
    assert !("/p" <= "q/") by { assert "q/"[0] != "/p"[0]; }
    assert RemoveAll("q/", "/p") == "q/";
    assert "/p" <= "/pq/";
    assert RemoveAll("/pq/", "/p") == "q/";
    assert !("/p" <= "x/pq/") by { assert "x/pq/"[0] != "/p"[0]; }
    assert RemoveAll("x/pq/", "/p") == "xq/";
    assert !("/p" <= "/x/pq/") by { assert "/x/pq/"[1] != "/p"[1]; }
    assert RemoveAll("/x/pq/", "/p") == "/xq/";
    assert "/p" <= "/p/x/pq/";
  }

  lemma RemoveParentSibling()
    ensures Remove("/p/xq/", "/p") == "/xq/"
  {
    assert RemoveAll("/", "/p") == "/";
    assert !("/p" <= "q/") by { assert "q/"[0] != "/p"[0]; }
    assert RemoveAll("q/", "/p") == "q/";
    assert !("/p" <= "xq/") by { assert "xq/"[0] != "/p"[0]; }
    assert RemoveAll("xq/", "/p") == "xq/";
    assert !("/p" <= "/xq/") by { assert "/xq/"[1] != "/p"[1]; }
    assert RemoveAll("/xq/", "/p") == "/xq/";
    assert "/p" <= "/p/xq/";
  }

  lemma StripXq()
    ensures ReplaceChar(StripChar("/xq/", Sep), Sep, '_') == "xq"
  {
    StripByIdentity("/", "xq", "/", x => x == Sep);
    assert "/" + "xq" + "/" == "/xq/";
    ReplaceAbsent("xq", Sep, '_');
  }

  /** The key function with the intended key. */
  function IntendedKeyOf(parent: string): string -> string {
    folderPath => IntendedFolderKey(parent, folderPath)
  }

  /** The dictionary the function is meant to return: the same walk, keyed by `IntendedFolderKey`. */
  function IntendedPathsDict(parent: string, tree: Folder): map<string, string> {
    Record(IntendedKeyOf(parent), map[], parent, Walk(parent, tree))
  }

  /**
    With the intended key, each folder below the parent has an entry under
    its path relative to the parent, with '_' for the separator.
   */
  lemma IntendedPathsDictKeys(parent: string, tree: Folder, names: seq<string>, s: Step, i: int)
    requires ValidTree(tree) && Visits(parent, tree, names, s)
    requires 0 <= i < |s.folder.subfolders| && Keep(s.folder.subfolders[i].name)
    ensures JoinWith(names + [s.folder.subfolders[i].name], '_') in IntendedPathsDict(parent, tree)
  {
    var steps := Walk(parent, tree);
    var subs := s.folder.subfolders;
    var all := names + [subs[i].name];
    WalkComplete(parent, tree, names, s);
    var j :| 0 <= j < |steps| && steps[j] == s;
    KeptSubfolders(subs);
    RecordHasKey(IntendedKeyOf(parent), parent, steps, j, subs[i].name);
    VisitsRoot(parent, tree, names, s);
    VisitsValid(parent, tree, names, s);
    JoinAllSnoc(parent, names, subs[i].name);
    forall k | 0 <= k < |all| ensures ValidName(all[k]) {
      if k < |names| { assert all[k] == names[k]; }
    }
    IntendedKeyJoinsNames(parent, all);
  }

  /** Every entry of the intended dictionary but the parent's is stored under the intended key of its own path. */
  lemma IntendedPathsDictPairs(parent: string, tree: Folder, k: string)
    requires k in IntendedPathsDict(parent, tree)
    ensures k == ParentKey(parent) || k == IntendedFolderKey(parent, IntendedPathsDict(parent, tree)[k])
  {
    RecordPairs(IntendedKeyOf(parent), parent, Walk(parent, tree), k);
  }

  /** The intended key still joins names with '_', so `a_b` and `a/b` below `/p` share the key `a_b`. */
  lemma IntendedKeyCollision()
    ensures IntendedFolderKey("/p", "/p/a_b/") == "a_b"
    ensures IntendedFolderKey("/p", "/p/a/b/") == "a_b"
  {
    FlatKey();
    NestedKey();
  }

  lemma FlatKey()
    ensures IntendedFolderKey("/p", "/p/a_b/") == "a_b"
  {
    var names := ["a_b"];
    assert ValidName(names[0]);
    assert JoinAll("/p", names) == "/p/a_b";
    assert JoinAll("/p", names) + "/" == "/p/a_b/";
    IntendedKeyJoinsNames("/p", names);
  }

  lemma NestedKey()
    ensures IntendedFolderKey("/p", "/p/a/b/") == "a_b"
  {
    var names := ["a", "b"];
    assert ValidName(names[0]) && ValidName(names[1]);
    assert JoinAll("/p", names) == JoinAll("/p/a", ["b"]) == "/p/a/b";
    assert JoinAll("/p", names) + "/" == "/p/a/b/";
    assert JoinWith(names, '_') == "a" + "_" + JoinWith(["b"], '_') == "a_b";
    IntendedKeyJoinsNames("/p", names);
  }
}
