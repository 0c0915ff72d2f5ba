/** `CrudFileSystemManager` over a tree of files: what its operations do to the tree, including when the
    disk refuses, and what that means for every other file. */
module FileTree {

  /** The components of a canonical path below the working directory. */
  type Path = seq<string>

  datatype Node = Dir | File(content: string)

  type Tree = map<Path, Node>

  function Parent(p: Path): Path
    requires p != []
  {
    p[..|p| - 1]
  }

  predicate IsDir(t: Tree, p: Path) { p in t && t[p].Dir? }

  predicate IsFile(t: Tree, p: Path) { p in t && t[p].File? }

  /** Every node but the working directory is in a directory. */
  ghost predicate WellFormed(t: Tree) {
    IsDir(t, []) && forall p :: p in t && p != [] ==> IsDir(t, Parent(p))
  }

  /** Some node is in directory `d`. */
  predicate HasChild(t: Tree, d: Path) {
    exists p :: p in t && p != [] && Parent(p) == d
  }

  /** The same files with the same contents. */
  ghost predicate SameFiles(t: Tree, t': Tree) {
    forall p :: (IsFile(t, p) <==> IsFile(t', p)) && (IsFile(t, p) ==> t'[p] == t[p])
  }

  /** The same files, and more directories, all on the way to `path`. */
  ghost predicate Grown(t: Tree, t': Tree, path: Path) {
    && SameFiles(t, t') && (forall p :: p in t ==> p in t')
    && forall p :: p in t' && p !in t ==> p <= path && t'[p].Dir?
  }

  // --- the operations as functions of the tree ----------------------------------------------

  /** `create_directories` from level `i` of the path on; the disk lets `budget` new directories be made. */
  function MakeDirs(t: Tree, path: Path, i: nat, budget: nat): (r: (Tree, bool))
    requires i <= |path| + 1
    decreases |path| + 1 - i
  {
    if i == |path| + 1 then (t, true)
    else if path[..i] in t then
      if t[path[..i]].Dir? then MakeDirs(t, path, i + 1, budget) else (t, false)
    else if budget == 0 then (t, false)
    else MakeDirs(t[path[..i] := Dir], path, i + 1, budget - 1)
  }

  function CreateDir(t: Tree, path: Path, budget: nat): (r: (Tree, bool)) {
    if IsDir(t, path) then (t, true) else MakeDirs(t, path, 0, budget)
  }

  function CreateFile(t: Tree, path: Path, content: string, opens: bool): (r: (Tree, bool)) {
    if path in t then (t, false)
    else if opens && path != [] && IsDir(t, Parent(path)) then (t[path := File(content)], true)
    else (t, false)
  }

  function WriteFile(t: Tree, path: Path, content: string, opens: bool): (r: (Tree, bool)) {
    if path !in t then (t, false)
    else if opens && t[path].File? then (t[path := File(content)], true)
    else (t, false)
  }

  /** `remove`: a file, or a directory with nothing in it, if the disk allows. */
  function Remove(t: Tree, path: Path, allowed: bool): (r: (Tree, bool)) {
    if allowed && path in t && (t[path].File? || !HasChild(t, path)) then (t - {path}, true) else (t, false)
  }

  predicate HasFile(t: Tree, d: Path) {
    exists p | p in t :: t[p].File? && p != [] && Parent(p) == d
  }

  /** `DeleteFile`: the file, and then its directory if no regular file is left in it. */
  function DeleteFile(t: Tree, path: Path, removes: bool, prunes: bool): (r: (Tree, bool))
    requires |path| >= 2
  {
    if path !in t then (t, false)
    else
      var (t1, ok) := Remove(t, path, removes);
      if ok && !HasFile(t1, Parent(path)) then (Remove(t1, Parent(path), prunes).0, true) else (t1, ok)
  }

  // --- what they mean -----------------------------------------------------------------------

  /** Making directories touches no file, adds only directories that lead to `path`, and succeeds exactly
      if `path` is a directory in the end. */
  lemma {:induction false} MakeDirsMeans(t: Tree, path: Path, i: nat, budget: nat)
    requires i <= |path| + 1 && WellFormed(t)
    requires forall j :: 0 <= j < i ==> IsDir(t, path[..j])
    ensures var (t', ok) := MakeDirs(t, path, i, budget);
            && WellFormed(t') && SameFiles(t, t')
            && (ok <==> IsDir(t', path))
            && (forall p :: p in t ==> p in t')
            && (forall p :: p in t' && p !in t ==> p <= path && t'[p].Dir?)
            && (budget >= |path| + 1 - i && (forall j :: 0 <= j <= |path| ==> !IsFile(t, path[..j])) ==> ok)
            && ((exists j :: 0 <= j <= |path| && IsFile(t, path[..j])) ==> !ok)
    decreases |path| + 1 - i
  {
    if i == |path| + 1 {
      assert path[..|path|] == path;
      forall j | 0 <= j <= |path|
        ensures !IsFile(t, path[..j])
      {
        assert IsDir(t, path[..j]);
      }
    } else if path[..i] in t {
      if t[path[..i]].Dir? {
        MakeDirsMeans(t, path, i + 1, budget);
      } else {
        NoDirBelow(t, path, i);
      }
    } else if budget == 0 {
      NoDirBelow(t, path, i);
    } else {
      var t1 := t[path[..i] := Dir];
      AddDir(t, path, i);
      MakeDirsMeans(t1, path, i + 1, budget - 1);
      assert !IsFile(MakeDirs(t1, path, i + 1, budget - 1).0, path[..i]);
    }
  }

  lemma NoDirBelow(t: Tree, path: Path, i: nat)
    requires WellFormed(t) && i <= |path| && !IsDir(t, path[..i])
    ensures !IsDir(t, path)
  {
    if IsDir(t, path) {
      assert path[..|path|] == path;
      DirsAbove(t, path, |path|);
    }
  }

  lemma AddDir(t: Tree, path: Path, i: nat)
    requires i <= |path| && WellFormed(t) && path[..i] !in t
    requires forall j :: 0 <= j < i ==> IsDir(t, path[..j])
    ensures WellFormed(t[path[..i] := Dir]) && SameFiles(t, t[path[..i] := Dir])
    ensures path[..i] <= path
  {
    var t1 := t[path[..i] := Dir];
    assert i > 0;
    assert Parent(path[..i]) == path[..i - 1];
    forall p | p in t1 && p != []
      ensures IsDir(t1, Parent(p))
    {
    }
  }

  lemma CreateDirMeans(t: Tree, path: Path, budget: nat)
    requires WellFormed(t)
    ensures var (t', ok) := CreateDir(t, path, budget);
            && WellFormed(t') && SameFiles(t, t')
            && (ok <==> IsDir(t', path))
            && (forall p :: p in t ==> p in t')
            && (forall p :: p in t' && p !in t ==> p <= path && t'[p].Dir?)
            && (budget > |path| && (forall j :: 0 <= j <= |path| ==> !IsFile(t, path[..j])) ==> ok)
            && ((exists j :: 0 <= j <= |path| && IsFile(t, path[..j])) ==> !ok)
  {
    if IsDir(t, path) {
      assert path[..|path|] == path;
      DirsAbove(t, path, |path|);
    } else {
      MakeDirsMeans(t, path, 0, budget);
    }
  }

  lemma {:induction false} DirsAbove(t: Tree, path: Path, n: nat)
    requires WellFormed(t) && n <= |path| && path[..n] in t && IsDir(t, path[..n])
    ensures forall j :: 0 <= j <= n ==> IsDir(t, path[..j])
    decreases n
  {
    if n > 0 {
      assert Parent(path[..n]) == path[..n - 1];
      DirsAbove(t, path, n - 1);
    }
  }

  /** Creating a file adds that file and changes nothing else; it fails exactly if something is there
      already, its directory is missing, or the disk refuses. */
  lemma CreateFileMeans(t: Tree, path: Path, content: string, opens: bool)
    requires WellFormed(t)
    ensures var (t', ok) := CreateFile(t, path, content, opens);
            && WellFormed(t')
            && t' == (if ok then t[path := File(content)] else t)
            && (ok <==> path !in t && opens && path != [] && IsDir(t, Parent(path)))
  {
  }

  lemma WriteFileMeans(t: Tree, path: Path, content: string, opens: bool)
    requires WellFormed(t)
    ensures var (t', ok) := WriteFile(t, path, content, opens);
            && WellFormed(t')
            && t' == (if ok then t[path := File(content)] else t)
            && (ok <==> IsFile(t, path) && opens)
  {
  }

  /** Some node other than `path` is in the same directory. */
  predicate HasSibling(t: Tree, path: Path)
    requires path != []
  {
    exists p :: p in t && p != [] && p != path && Parent(p) == Parent(path)
  }

  lemma RemoveFileMeans(t: Tree, path: Path)
    requires WellFormed(t) && |path| >= 2 && IsFile(t, path)
    ensures var t1, d := t - {path}, Parent(path);
            && Remove(t, path, true) == (t1, true) && WellFormed(t1) && IsDir(t1, d)
            && (HasChild(t1, d) <==> HasSibling(t, path))
  {
    assert forall p :: p in t && p != [] ==> Parent(p) != path;
  }

  /** Deleting a file removes that one file from the whole tree and, if the disk allows it, its directory
      exactly when nothing else is in there: neither a file nor a directory. */
  lemma DeleteFileMeans(t: Tree, path: Path, removes: bool, prunes: bool)
    requires WellFormed(t) && |path| >= 2 && IsFile(t, path)
    ensures var (t', ok) := DeleteFile(t, path, removes, prunes);
            && WellFormed(t') && ok == removes
            && t' == (if !ok then t
                      else if prunes && !HasSibling(t, path) then t - {path} - {Parent(path)}
                      else t - {path})
  {
    if removes {
      RemoveFileMeans(t, path);
      var t1, d := t - {path}, Parent(path);
      assert HasFile(t1, d) ==> HasChild(t1, d);
      if !HasChild(t1, d) {
        assert forall p :: p in t1 && p != [] ==> Parent(p) != d;
      }
    }
  }

  lemma RemoveKeeps(t: Tree, path: Path, allowed: bool)
    requires WellFormed(t) && path != []
    ensures WellFormed(Remove(t, path, allowed).0)
  {
    if path in t && t[path].File? {
      assert forall p :: p in t && p != [] ==> Parent(p) != path;
    }
  }

  lemma NoNamesNoFile(t: Tree, d: Path, listed: bool, names: seq<string>)
    requires listed ==> forall s :: s in names <==> IsFile(t, d + [s])
    requires WellFormed(t) && (listed <==> IsDir(t, d)) && (!listed ==> names == [])
    ensures names == [] <==> !HasFile(t, d)
  {
    if HasFile(t, d) {
      var p :| IsFile(t, p) && p != [] && Parent(p) == d;
      assert IsDir(t, Parent(p));
      assert p == d + [p[|p| - 1]];
      assert p[|p| - 1] in names;
    }
    if names != [] {
      var p := d + [names[0]];
      assert names[0] in names;
      assert p[..|p| - 1] == d;
      assert IsFile(t, p) && Parent(p) == d;
    }
  }

  // --- the class ----------------------------------------------------------------------------

  const CHUNK := 1024

  class CrudFileSystemManager {
    var tree: Tree

    constructor ()
      ensures tree == map[[] := Dir]
    {
      tree := map[[] := Dir];
    }

    method CreateDirectory(path: Path, budget: nat) returns (ok: bool)
      modifies this
      ensures (tree, ok) == CreateDir(old(tree), path, budget)
    {
      if path in tree && tree[path].Dir? { return true; }
      var made := MakeDirs(tree, path, 0, budget);
      tree, ok := made.0, made.1;
    }

    method CreateNewFile(path: Path, content: string, opens: bool) returns (ok: bool)
      modifies this
      ensures (tree, ok) == CreateFile(old(tree), path, content, opens)
    {
      if path in tree { return false; }
      if opens && path != [] && IsDir(tree, Parent(path)) {
        tree := tree[path := File(content)];
        return true;
      } else {
        return false;
      }
    }

    /** The chunk loop: at most `chunks` chunks are read before the disk fails. The end of the file is
        noticed only by a read that comes up short, so a file whose length is a multiple of the chunk
        size takes one more read, of nothing. */
    method ReadFile(path: Path, opens: bool, chunks: nat) returns (ok: bool, body: string)
      ensures ok <==> IsFile(tree, path) && opens && chunks > |tree[path].content| / 1024
      ensures ok ==> body == tree[path].content
    {
      body := "";
      if !opens || !IsFile(tree, path) { return false, body; }
      var content := tree[path].content;
      var pos, left, eof := 0, chunks, false;
      while !eof
        invariant 0 <= pos <= |content| && 0 <= left && body == content[..pos]
        invariant if eof then pos == |content| && chunks - left == |content| / CHUNK + 1
                  else left <= chunks && pos == (chunks - left) * CHUNK
        decreases |content| - pos, !eof
      {
        if left == 0 {
          assert chunks <= |content| / CHUNK;
          return false, body;
        }
        left := left - 1;
        var count := if |content| - pos < CHUNK then |content| - pos else CHUNK;
        body := body + content[pos..pos + count];
        pos := pos + count;
        eof := count < CHUNK;
      }
      return true, body;
    }

    method WriteToFile(path: Path, content: string, opens: bool) returns (ok: bool)
      modifies this
      ensures (tree, ok) == WriteFile(old(tree), path, content, opens)
    {
      if path !in tree { return false; }
      if opens && tree[path].File? {
        tree := tree[path := File(content)];
        return true;
      } else {
        return false;
      }
    }

    method RemoveFile(path: Path, removes: bool, prunes: bool) returns (ok: bool)
      requires |path| >= 2 && WellFormed(tree)
      modifies this
      ensures (tree, ok) == DeleteFile(old(tree), path, removes, prunes)
    {
      if path !in tree { return false; }
      var removed := Remove(tree, path, removes);
      RemoveKeeps(tree, path, removes);
      tree := removed.0;
      var listed, dirContent := ListFiles(Parent(path));
      NoNamesNoFile(tree, Parent(path), listed, dirContent);
      if removed.1 && |dirContent| == 0 {
        tree := Remove(tree, Parent(path), prunes).0;
        return true;
      }
      return removed.1;
    }

    /** The names of the regular files of a directory, in no particular order, each once. */
    method ListFiles(path: Path) returns (ok: bool, names: seq<string>)
      ensures ok <==> IsDir(tree, path)
      ensures ok ==> forall s :: s in names <==> IsFile(tree, path + [s])
      ensures forall i, j :: 0 <= i < j < |names| ==> names[i] != names[j]
      ensures !ok ==> names == []
    {
      names := [];
      if !IsDir(tree, path) { return false, names; }
      var left := tree.Keys;
      while left != {}
        invariant left <= tree.Keys
        invariant forall s :: s in names <==> IsFile(tree, path + [s]) && path + [s] !in left
        invariant forall i, j :: 0 <= i < j < |names| ==> names[i] != names[j]
        decreases left
      {
        var p :| p in left;
        if p != [] && Parent(p) == path && tree[p].File? {
          var s := p[|p| - 1];
          assert p == path + [s];
          names := names + [s];
        }
        left := left - {p};
        forall s
          ensures s in names <==> IsFile(tree, path + [s]) && path + [s] !in left
        {
          if path + [s] == p {
            assert Parent(p) == path && p[|p| - 1] == s;
          }
        }
      }
      return true, names;
    }
  }
}
