/** File operations over a disk on which every system call may fail. */
module FileOps {
  import opened FileTree

  datatype Code = ENOENT | EEXIST | EISDIR | ENOTDIR | EINVAL | EIO | Other

  datatype Outcome = Done | Failed(code: Code)

  datatype RenameResult = Renamed | CrossDevice | Refused

  /** Something can be put at path by way of temp. */
  predicate CanPlace(t: Tree, path: Path, temp: Path) {
    temp !in t && ParentIsDir(t, temp) && ParentIsDir(t, path)
  }

  /** A file was written and nothing else changed. */
  predicate Replaced(t: Tree, t': Tree, p: Path, data: seq<Byte>) {
    p in t' && t'[p].File? && t'[p].data == data && t' == t[p := t'[p]]
  }

  /** seen has every state the disk has gone through. Any system call may fail; on a reliable
      disk it fails only for what the tree itself forbids. */
  class Disk {
    const reliable: bool
    var tree: Tree
    ghost var seen: seq<Tree>

    constructor (reliable: bool)
      ensures WellFormed(tree) && tree == map[[] := Dir] && seen == [] && this.reliable == reliable
    {
      this.reliable := reliable;
      tree, seen := map[[] := Dir], [];
    }

    // ---- System calls ----------------------------------------------------------------------------------

    method Put(p: Path, n: Node)
      modifies this
      ensures tree == old(tree)[p := n] && seen == old(seen) + [tree]
    {
      tree := tree[p := n];
      seen := seen + [tree];
    }

    method Drop(p: Path)
      modifies this
      ensures tree == old(tree) - {p} && seen == old(seen) + [tree]
    {
      tree := tree - {p};
      seen := seen + [tree];
    }

    /** A call that touches nothing on the disk. */
    method Call() returns (ok: bool)
      ensures reliable ==> ok
    {
      ok := *;
      ok := ok || reliable;
    }

    /** How much of what is asked for one read or write handles. */
    method Piece(most: nat) returns (n: nat)
      requires most > 0
      ensures 0 < n <= most
    {
      n := *;
      if n < 1 || n > most {
        n := most;
      }
    }

    method CreateExclusive(p: Path) returns (ok: bool)
      requires WellFormed(tree)
      modifies this
      ensures WellFormed(tree)
      ensures ok ==> p !in old(tree) && p != [] && p in tree && tree[p].File? && tree[p].data == []
      ensures ok ==> tree == old(tree)[p := tree[p]] && seen == old(seen) + [tree]
      ensures !ok ==> tree == old(tree) && seen == old(seen)
      ensures reliable && p !in old(tree) && ParentIsDir(old(tree), p) ==> ok
    {
      ok := *;
      var mode: nat := *;
      ok := (ok || reliable) && p !in tree && ParentIsDir(tree, p);
      if ok {
        Put(p, File([], mode));
      }
    }

    method Chmod(p: Path, mode: nat) returns (ok: bool)
      requires WellFormed(tree) && p in tree && tree[p].File?
      modifies this
      ensures WellFormed(tree)
      ensures ok ==> tree == old(tree)[p := File(old(tree)[p].data, mode)] && seen == old(seen) + [tree]
      ensures !ok ==> tree == old(tree) && seen == old(seen)
      ensures reliable ==> ok
    {
      ok := Call();
      if ok {
        Put(p, File(tree[p].data, mode));
      }
    }

    /** Writes all of the data, in as many pieces as the system takes. */
    method WriteAll(p: Path, data: seq<Byte>) returns (ok: bool)
      requires WellFormed(tree) && p in tree && tree[p].File?
      modifies this
      ensures WellFormed(tree) && old(seen) <= seen
      ensures p in tree && tree[p].File? && tree[p].mode == old(tree)[p].mode
      ensures tree == old(tree)[p := tree[p]]
      ensures ok ==> tree[p].data == old(tree)[p].data + data
      ensures AllExcept(seen, |old(seen)|, old(tree), p)
      ensures reliable ==> ok
    {
      var written: nat := 0;
      assert data[..0] == [] && tree[p].data + [] == tree[p].data;
      while written < |data|
        invariant written <= |data| && WellFormed(tree) && old(seen) <= seen
        invariant p in tree && tree[p] == File(old(tree)[p].data + data[..written], old(tree)[p].mode)
        invariant tree == old(tree)[p := tree[p]]
        invariant AllExcept(seen, |old(seen)|, old(tree), p)
      {
        var goesOn := Call();
        if !goesOn {
          return false;
        }
        var n := Piece(|data| - written);
        assert data[..written + n] == data[..written] + data[written..written + n];
        Put(p, File(tree[p].data + data[written..written + n], tree[p].mode));
        written := written + n;
      }
      assert data[..written] == data;
      ok := true;
    }

    /** Reads one file to its end in pieces and writes each to another. */
    method CopyContents(from: Path, to: Path) returns (ok: bool)
      requires WellFormed(tree) && from in tree && tree[from].File? && to in tree && tree[to].File?
      requires from != to && tree[to].data == []
      modifies this
      ensures WellFormed(tree) && old(seen) <= seen
      ensures to in tree && tree[to].File? && tree == old(tree)[to := tree[to]]
      ensures ok ==> tree[to].data == old(tree)[from].data
      ensures AllExcept(seen, |old(seen)|, old(tree), to)
      ensures reliable ==> ok
    {
      var at: nat := 0;
      while true
        invariant WellFormed(tree) && old(seen) <= seen
        invariant to in tree && tree[to].File? && tree == old(tree)[to := tree[to]]
        invariant at <= |old(tree)[from].data| && tree[to].data == old(tree)[from].data[..at]
        invariant AllExcept(seen, |old(seen)|, old(tree), to)
        decreases |old(tree)[from].data| - at
      {
        ok := Call();
        if !ok {
          return;
        }
        var data := tree[from].data;
        if at == |data| {
          return true;
        }
        var n := Piece(|data| - at);
        ghost var before, sofar := tree, seen;
        ok := WriteAll(to, data[at..at + n]);
        ExceptGoesOn(sofar, seen, |old(seen)|, old(tree), before, to);
        if !ok {
          return;
        }
        assert data[..at + n] == data[..at] + data[at..at + n];
        at := at + n;
      }
    }

    /** rename(2) on a file: atomic, replacing a file unless told not to. */
    method RenameFile(from: Path, to: Path, noReplace: bool) returns (ok: bool)
      requires WellFormed(tree) && from in tree && tree[from].File? && from != to
      modifies this
      ensures WellFormed(tree)
      ensures ok ==> (to in old(tree) ==> !noReplace && old(tree)[to].File?)
      ensures ok ==> tree == (old(tree) - {from})[to := old(tree)[from]] && seen == old(seen) + [tree]
      ensures !ok ==> tree == old(tree) && seen == old(seen)
      ensures reliable && ParentIsDir(old(tree), to) && (to in old(tree) ==> !noReplace && old(tree)[to].File?) ==> ok
    {
      ok := Call();
      ok := ok && ParentIsDir(tree, to) && (to in tree ==> !noReplace && tree[to].File?);
      if ok {
        tree := (tree - {from})[to := tree[from]];
        seen := seen + [tree];
      }
    }

    method Unlink(p: Path) returns (ok: bool)
      requires WellFormed(tree)
      modifies this
      ensures WellFormed(tree)
      ensures ok ==> p in old(tree) && old(tree)[p].File? && tree == old(tree) - {p} && seen == old(seen) + [tree]
      ensures !ok ==> tree == old(tree) && seen == old(seen)
      ensures reliable && p in old(tree) && old(tree)[p].File? ==> ok
    {
      ok := Call();
      ok := ok && p in tree && tree[p].File?;
      if ok {
        Drop(p);
      }
    }

    method Mkdir(p: Path) returns (ok: bool)
      requires WellFormed(tree)
      modifies this
      ensures WellFormed(tree)
      ensures ok ==> p !in old(tree) && p != [] && tree == old(tree)[p := Dir] && seen == old(seen) + [tree]
      ensures !ok ==> tree == old(tree) && seen == old(seen)
      ensures reliable && p !in old(tree) && ParentIsDir(old(tree), p) ==> ok
    {
      ok := Call();
      ok := ok && p !in tree && ParentIsDir(tree, p);
      if ok {
        Put(p, Dir);
      }
    }

    method Rmdir(p: Path) returns (ok: bool)
      requires WellFormed(tree)
      modifies this
      ensures WellFormed(tree)
      ensures ok ==> p in old(tree) && Below(old(tree), p) == {}
      ensures ok ==> tree == old(tree) - {p} && seen == old(seen) + [tree]
      ensures !ok ==> tree == old(tree) && seen == old(seen)
      ensures reliable && p != [] && p in old(tree) && old(tree)[p].Dir? && Below(old(tree), p) == {} ==> ok
    {
      ok := Call();
      ok := ok && p != [] && p in tree && tree[p].Dir? && Below(tree, p) == {};
      if ok {
        forall q | q in tree && q != []
          ensures q[..|q| - 1] != p
        {
          assert q[..|q| - 1] == p ==> q in Below(tree, p);
        }
        Drop(p);
      }
    }

    method ListDir(p: Path) returns (ok: bool, names: seq<Name>)
      ensures ok ==> forall n: Name :: n in names <==> p + [n] in tree
      ensures ok ==> forall i, j | 0 <= i < j < |names| :: names[i] != names[j]
      ensures reliable ==> ok
    {
      ok := Call();
      names := [];
      var rest := set q | q in tree && p < q && |q| == |p| + 1;
      while rest != {}
        invariant forall n: Name :: p + [n] in tree <==> n in names || p + [n] in rest
        invariant forall n: Name :: n in names ==> p + [n] !in rest
        invariant forall q | q in rest :: q in tree && p < q && |q| == |p| + 1
        invariant forall i, j | 0 <= i < j < |names| :: names[i] != names[j]
        decreases |rest|
      {
        var q :| q in rest;
        assert q == p + [q[|p|]];
        names := names + [q[|p|]];
        rest := rest - {q};
      }
    }

    // ---- Atomic writing ---------------------------------------------------------------------------------

    /** Removes a temporary file this operation created. */
    method Cleanup(temp: Path, ghost before: Tree) returns (ok: bool)
      requires WellFormed(tree) && temp !in before && temp in tree && tree[temp].File?
      requires tree == before[temp := tree[temp]]
      modifies this
      ensures WellFormed(tree) && old(seen) <= seen && AllExcept(seen, |old(seen)|, before, temp)
      ensures AgreeExcept(before, tree, temp) && (ok ==> tree == before)
      ensures reliable ==> ok
    {
      ok := Unlink(temp);
      assert before[temp := old(tree[temp])] - {temp} == before;
    }

    method FillTemp(temp: Path, data: seq<Byte>, ghost before: Tree, ghost k: nat) returns (ok: bool)
      requires WellFormed(tree) && temp in tree && tree[temp].File? && tree[temp].data == []
      requires tree == before[temp := tree[temp]] && k <= |seen| && AllExcept(seen, k, before, temp)
      modifies this
      ensures WellFormed(tree) && old(seen) <= seen && AllExcept(seen, k, before, temp)
      ensures temp in tree && tree[temp].File? && tree[temp].mode == old(tree)[temp].mode
      ensures tree == before[temp := tree[temp]] && (ok ==> tree[temp].data == data)
      ensures reliable ==> ok
    {
      ok := WriteAll(temp, data);
      assert AgreeExcept(before, old(tree), temp);
      ExceptGoesOn(old(seen), seen, k, before, old(tree), temp);
      assert [] + data == data;
    }

    /** The temporary file with the whole data, synced and closed. */
    method PrepareTemp(temp: Path, data: seq<Byte>, keep: bool, mode: nat)
      returns (ok: bool, made: bool, modeKept: bool)
      requires WellFormed(tree)
      modifies this
      ensures WellFormed(tree) && old(seen) <= seen && AllExcept(seen, |old(seen)|, old(tree), temp)
      ensures made ==> temp !in old(tree) && temp in tree && tree[temp].File? && tree == old(tree)[temp := tree[temp]]
      ensures !made ==> tree == old(tree)
      ensures ok ==> made && tree[temp].data == data && (modeKept ==> tree[temp].mode == mode)
      ensures reliable && temp !in old(tree) && ParentIsDir(old(tree), temp) ==> ok && (keep ==> modeKept)
    {
      modeKept := false;
      made := CreateExclusive(temp);
      if !made {
        return false, false, false;
      }
      if keep {
        modeKept := Chmod(temp, mode);
      }
      ok := FillTemp(temp, data, old(tree), |old(seen)|);
      if ok {
        ok := Call();
      }
      if ok {
        ok := Call();
      }
    }

    /** Writing through a temporary sibling. At every moment the target is wholly what it was
        or wholly what it is to be; a failure leaves it as it was, and no temporary if that
        could be removed; success changes the target alone and keeps its mode if that could
        be set. */
    method WriteFileAtomically(path: Path, data: seq<Byte>, temp: Path)
      returns (r: Outcome, modeKept: bool, tempRemoved: bool)
      requires WellFormed(tree) && temp != path
      modifies this
      ensures WellFormed(tree) && old(seen) <= seen
      ensures old(path in tree && tree[path].Dir?) ==> r.Failed? && tree == old(tree)
      ensures forall i | |old(seen)| <= i < |seen| ::
        AgreeExcept(old(tree), seen[i], temp) || (r.Done? && seen[i] == tree)
      ensures r.Done? ==> Replaced(old(tree), tree, path, data)
      ensures r.Done? && old(path in tree) && modeKept ==> tree[path].mode == old(tree[path].mode)
      ensures r.Failed? ==> AgreeExcept(old(tree), tree, temp) && (tempRemoved ==> tree == old(tree))
      ensures reliable ==> tempRemoved
      ensures reliable && old(path in tree && tree[path].Dir?) ==> r == Failed(EISDIR)
      ensures reliable && CanPlace(old(tree), path, temp) && !old(path in tree && tree[path].Dir?) ==>
        r.Done? && (path in old(tree) ==> modeKept)
    {
      modeKept, tempRemoved := false, true;
      var ok := Call();
      if !ok {
        return Failed(Other), false, true;
      }
      var there := path in tree;
      if there && tree[path].Dir? {
        return Failed(EISDIR), false, true;
      }
      var made;
      ok, made, modeKept := PrepareTemp(temp, data, there, if there then tree[path].mode else 0);
      if ok {
        ok := RenameFile(temp, path, false);
        if ok {
          assert tree == old(tree)[path := tree[path]];
          return Done, modeKept, true;
        }
      }
      if made {
        ghost var sofar := seen;
        tempRemoved := Cleanup(temp, old(tree));
        ExceptGoesOn(sofar, seen, |old(seen)|, old(tree), old(tree), temp);
      }
      r := Failed(Other);
    }


    // ---- Copying and removing ---------------------------------------------------------------------------

    /** Copies a file to where nothing is; a failure may leave part of it. */
    method CopyFileDirect(from: Path, to: Path) returns (ok: bool)
      requires WellFormed(tree) && from in tree && tree[from].File? && from != to
      modifies this
      ensures WellFormed(tree) && old(seen) <= seen && AllExcept(seen, |old(seen)|, old(tree), to)
      ensures AgreeExcept(old(tree), tree, to)
      ensures ok ==> to !in old(tree) && Replaced(old(tree), tree, to, old(tree)[from].data)
      ensures reliable && to !in old(tree) && ParentIsDir(old(tree), to) ==> ok
    {
      ok := Call();
      if !ok {
        return;
      }
      ok := CreateExclusive(to);
      if !ok {
        return;
      }
      assert AgreeExcept(old(tree), tree, to);
      ok := FillCopy(from, to, old(tree), |old(seen)|);
      if ok {
        ok := Call();
      }
    }

    method FillCopy(from: Path, to: Path, ghost before: Tree, ghost k: nat) returns (ok: bool)
      requires WellFormed(tree) && to in tree && tree[to].File? && tree[to].data == [] && from != to
      requires from in tree && tree[from].File? && from in before && before[from] == tree[from]
      requires tree == before[to := tree[to]] && k <= |seen| && AllExcept(seen, k, before, to)
      modifies this
      ensures WellFormed(tree) && old(seen) <= seen && AllExcept(seen, k, before, to)
      ensures to in tree && tree[to].File? && tree == before[to := tree[to]]
      ensures ok ==> tree[to].data == before[from].data
      ensures reliable ==> ok
    {
      ok := CopyContents(from, to);
      assert AgreeExcept(before, old(tree), to);
      ExceptGoesOn(old(seen), seen, k, before, old(tree), to);
    }

    /** Copies a file through a temporary sibling, so that part of a copy is never seen at the
        target. */
    method CopyFileViaTemp(from: Path, to: Path, noReplace: bool, temp: Path) returns (ok: bool, tempRemoved: bool)
      requires WellFormed(tree) && from in tree && tree[from].File? && temp != to && from != to
      modifies this
      ensures WellFormed(tree) && old(seen) <= seen
      ensures forall i | |old(seen)| <= i < |seen| :: AgreeExcept(old(tree), seen[i], temp) || (ok && seen[i] == tree)
      ensures seen != old(seen) ==> !(from <= temp)
      ensures seen == old(seen) ==> tree == old(tree) && !ok
      ensures ok ==> Replaced(old(tree), tree, to, old(tree)[from].data) && (noReplace ==> to !in old(tree))
      ensures !ok ==> AgreeExcept(old(tree), tree, temp) && (tempRemoved ==> tree == old(tree))
      ensures reliable ==> tempRemoved
      ensures reliable && CanPlace(old(tree), to, temp)
              && (to in old(tree) ==> !noReplace && old(tree)[to].File?) ==>
        ok
    {
      tempRemoved := true;
      ok := Call();
      if !ok {
        return;
      }
      var made;
      ok, made := PrepareCopy(from, temp);
      if ok {
        ok := RenameFile(temp, to, noReplace);
        if ok {
          assert tree == old(tree)[to := tree[to]];
          return;
        }
      }
      if made {
        ghost var sofar := seen;
        tempRemoved := Cleanup(temp, old(tree));
        ExceptGoesOn(sofar, seen, |old(seen)|, old(tree), old(tree), temp);
      }
    }

    /** The temporary copy, synced and closed. */
    method PrepareCopy(from: Path, temp: Path) returns (ok: bool, made: bool)
      requires WellFormed(tree) && from in tree && tree[from].File?
      modifies this
      ensures WellFormed(tree) && old(seen) <= seen && AllExcept(seen, |old(seen)|, old(tree), temp)
      ensures made ==> temp !in old(tree) && temp in tree && tree[temp].File? && tree == old(tree)[temp := tree[temp]]
      ensures made ==> !(from <= temp) && |seen| > |old(seen)|
      ensures !made ==> !ok && tree == old(tree) && seen == old(seen)
      ensures ok ==> tree[temp].data == old(tree)[from].data
      ensures reliable && temp !in old(tree) && ParentIsDir(old(tree), temp) ==> ok
    {
      made := CreateExclusive(temp);
      if !made {
        return false, false;
      }
      AncestorsOfAll(tree, from);
      FilesHaveNothingBelow(tree, from, temp);
      ok := FillTempFrom(from, temp, old(tree), |old(seen)|);
    }

    method FillTempFrom(from: Path, temp: Path, ghost before: Tree, ghost k: nat) returns (ok: bool)
      requires WellFormed(tree) && temp in tree && tree[temp].File? && tree[temp].data == [] && from != temp
      requires from in tree && tree[from].File? && from in before && before[from] == tree[from]
      requires tree == before[temp := tree[temp]] && k <= |seen| && AllExcept(seen, k, before, temp)
      modifies this
      ensures WellFormed(tree) && old(seen) <= seen && AllExcept(seen, k, before, temp)
      ensures temp in tree && tree[temp].File? && tree == before[temp := tree[temp]]
      ensures ok ==> tree[temp].data == before[from].data
      ensures reliable ==> ok
    {
      ok := FillCopy(from, temp, before, k);
      if ok {
        ok := Call();
      }
      if ok {
        ok := Call();
      }
    }

    /** Removes a directory and all below it; a failure leaves the rest in place. */
    method RemoveTree(dir: Path) returns (ok: bool)
      requires WellFormed(tree) && dir in tree && tree[dir].Dir? && dir != []
      modifies this
      ensures WellFormed(tree) && old(seen) <= seen && AllOutside(seen, |old(seen)|, old(tree), dir)
      ensures AgreeOutside(old(tree), tree, dir) && Shrunk(old(tree), tree)
      ensures ok ==> NothingAt(tree, dir)
      ensures reliable ==> ok
      decreases |Below(tree, dir)|, 1
    {
      var names;
      ok, names := ListDir(dir);
      if !ok {
        return;
      }
      var i := 0;
      while i < |names|
        invariant 0 <= i <= |names| && WellFormed(tree) && dir in tree && tree[dir].Dir?
        invariant old(seen) <= seen && AllOutside(seen, |old(seen)|, old(tree), dir)
        invariant AgreeOutside(old(tree), tree, dir) && Shrunk(old(tree), tree)
        invariant forall n | n in names[..i] :: NothingAt(tree, dir + [n])
      {
        ghost var before, sofar := tree, seen;
        ok := RemoveEntry(dir, names[i], old(tree));
        OutsideGoesOn(sofar, seen, |old(seen)|, old(tree), before, dir);
        OutsideTrans(old(tree), before, tree, dir);
        if !ok {
          return;
        }
        GoneStay(before, tree, dir, names[..i]);
        assert names[..i + 1] == names[..i] + [names[i]];
        i := i + 1;
      }
      assert names[..i] == names;
      AllGone(old(tree), tree, dir, names);
      ghost var before, sofar := tree, seen;
      ok := Rmdir(dir);
      if ok {
        EmptyDirRemoved(before, tree, dir);
        OutsideGoesOn(sofar, seen, |old(seen)|, old(tree), before, dir);
        OutsideTrans(old(tree), before, tree, dir);
      }
    }

    method RemoveEntry(dir: Path, n: Name, ghost start: Tree) returns (ok: bool)
      requires WellFormed(tree) && dir in tree && tree[dir].Dir? && Shrunk(start, tree)
      modifies this
      ensures WellFormed(tree) && old(seen) <= seen && AllOutside(seen, |old(seen)|, old(tree), dir)
      ensures AgreeOutside(old(tree), tree, dir) && Shrunk(old(tree), tree) && dir in tree && tree[dir].Dir?
      ensures reliable ==> ok
      ensures ok ==> NothingAt(tree, dir + [n])
      decreases |Below(start, dir)|, 0
    {
      var p := dir + [n];
      ok := Call();
      if !ok || p !in tree {
        AncestorsOfAll(tree, p);
        return;
      }
      if tree[p].Dir? {
        BelowShrinks(start, tree, dir, n);
        ok := RemoveTree(p);
      } else {
        ok := Unlink(p);
        FileRemoved(old(tree), tree, p, ok);
      }
      AllWeaken(seen, |old(seen)|, old(tree), dir, p);
      OutsideWeaken(old(tree), tree, dir, p);
      assert SameAt(old(tree), tree, dir);
    }

    /** Copies what is in one directory to another, empty one. */
    method CopyTreeContents(from: Path, to: Path) returns (ok: bool)
      requires WellFormed(tree) && from in tree && tree[from].Dir? && to in tree && tree[to].Dir?
      requires Below(tree, to) == {} && Apart(from, to)
      modifies this
      ensures WellFormed(tree) && old(seen) <= seen && AllOutside(seen, |old(seen)|, old(tree), to)
      ensures AgreeOutside(old(tree), tree, to) && to in tree && tree[to].Dir?
      ensures ok ==> Copied(old(tree), from, tree, to)
      ensures reliable ==> ok
      decreases |Below(tree, from)|, 1
    {
      var names;
      ok, names := ListDir(from);
      if !ok {
        return;
      }
      var i := 0;
      NothingInside(tree, to);
      while i < |names|
        invariant 0 <= i <= |names| && WellFormed(tree) && to in tree && tree[to].Dir?
        invariant old(seen) <= seen && AllOutside(seen, |old(seen)|, old(tree), to)
        invariant AgreeOutside(old(tree), tree, to)
        invariant PartlyCopied(old(tree), tree, from, to, names[..i])
      {
        var n := names[i];
        ok := Call();
        if !ok {
          return;
        }
        ghost var before, sofar := tree, seen;
        ok := CopyEntry(from, to, n, old(tree));
        EntryCopied(old(tree), before, tree, from, to, n, names[..i], ok);
        AllWeaken(seen, |sofar|, before, to, to + [n]);
        OutsideGoesOn(sofar, seen, |old(seen)|, old(tree), before, to);
        if !ok {
          return;
        }
        assert names[..i + 1] == names[..i] + [n];
        i := i + 1;
      }
      assert names[..i] == names;
      AllListedCopied(old(tree), tree, from, to, names);
    }

    method CopyEntry(from: Path, to: Path, n: Name, ghost start: Tree) returns (ok: bool)
      requires WellFormed(tree) && to in tree && tree[to].Dir? && Apart(from, to)
      requires AgreeOutside(start, tree, to) && from + [n] in start && NothingAt(tree, to + [n])
      modifies this
      ensures WellFormed(tree) && old(seen) <= seen && AllOutside(seen, |old(seen)|, old(tree), to + [n])
      ensures AgreeOutside(old(tree), tree, to + [n])
      ensures ok ==> Copied(old(tree), from + [n], tree, to + [n])
      ensures reliable ==> ok
      decreases |Below(start, from)|, 0
    {
      var src, dst := from + [n], to + [n];
      ChildrenOfApart(from, to, n);
      assert SameAt(start, tree, src);
      if tree[src].Dir? {
        ok := Mkdir(dst);
        if !ok {
          return;
        }
        ghost var before, sofar := tree, seen;
        assert Below(tree, dst) == {};
        OutsideWeaken(old(tree), tree, to, dst);
        OutsideTrans(start, old(tree), tree, to);
        BelowSame(start, tree, from, to, n);
        ok := CopyTreeContents(src, dst);
        OutsideGoesOn(sofar, seen, |old(seen)|, old(tree), before, dst);
        OutsideTrans(old(tree), before, tree, dst);
        if ok {
          CopiedElsewhere(old(tree), before, dst, src);
          CopiedTrans(old(tree), src, before, src, tree, dst);
        }
      } else {
        ok := CopyFileDirect(src, dst);
        if ok {
          FileCopied(old(tree), src, tree, dst);
        }
      }
    }

    /** Copies a directory tree to where nothing is. A failure takes away what was made, and
        never anything that was there before. */
    method CopyTree(from: Path, to: Path) returns (ok: bool, cleaned: bool)
      requires WellFormed(tree) && from in tree && tree[from].Dir? && !(from <= to)
      modifies this
      ensures WellFormed(tree) && old(seen) <= seen && AllOutside(seen, |old(seen)|, old(tree), to)
      ensures AgreeOutside(old(tree), tree, to)
      ensures old(to in tree) ==> !ok && tree == old(tree)
      ensures ok ==> Copied(old(tree), from, tree, to)
      ensures !ok && cleaned ==> tree == old(tree)
      ensures seen != old(seen) || ok ==> Apart(from, to)
      ensures seen == old(seen) ==> tree == old(tree)
      ensures reliable ==> cleaned
      ensures reliable && to !in old(tree) && ParentIsDir(old(tree), to) ==> ok
    {
      cleaned := true;
      ok := Mkdir(to);
      if !ok {
        return;
      }
      NewIsApart(old(tree), tree, from, to);
      ghost var before, sofar := tree, seen;
      ok := CopyTreeContents(from, to);
      OutsideGoesOn(sofar, seen, |old(seen)|, old(tree), before, to);
      OutsideTrans(old(tree), before, tree, to);
      if ok {
        CopiedElsewhere(old(tree), before, to, from);
        CopiedTrans(old(tree), from, before, from, tree, to);
        return;
      }
      cleaned := RollBack(to, old(tree), |old(seen)|);
    }

    method RollBack(to: Path, ghost start: Tree, ghost k: nat) returns (cleaned: bool)
      requires WellFormed(tree) && to != [] && to in tree && tree[to].Dir? && NothingAt(start, to)
      requires AgreeOutside(start, tree, to) && k <= |seen| && AllOutside(seen, k, start, to)
      modifies this
      ensures WellFormed(tree) && old(seen) <= seen && AllOutside(seen, k, start, to)
      ensures AgreeOutside(start, tree, to) && (cleaned ==> tree == start)
      ensures reliable ==> cleaned
    {
      cleaned := RemoveTree(to);
      OutsideGoesOn(old(seen), seen, k, start, old(tree), to);
      OutsideTrans(start, old(tree), tree, to);
      if cleaned {
        NothingLeft(start, tree, to);
      }
    }

    /** Where renaming will not do: a whole copy first, and only then is the source taken away. */
    method MoveByCopy(from: Path, to: Path, targetAbsent: bool, temp: Path) returns (r: Outcome)
      requires WellFormed(tree) && from in tree && from != [] && temp != to && from != to
      requires tree[from].Dir? ==> !(from <= to)
      modifies this
      ensures WellFormed(tree) && old(seen) <= seen
      ensures AllSafe(seen, |old(seen)|, old(tree), from, to)
      ensures Safe(old(tree), tree, from, to)
      ensures AllElsewhere(seen, |old(seen)|, old(tree), from, to, temp) && Elsewhere(old(tree), tree, from, to, temp)
      ensures r.Done? ==> Copied(old(tree), from, tree, to) && NothingAt(tree, from)
      ensures r.Failed? ==> r.code == Other || r.code == EIO
      ensures r == Failed(Other) ==> Copied(old(tree), from, tree, from)
      ensures r == Failed(EIO) ==> Copied(old(tree), from, tree, to)
      ensures reliable && to !in old(tree) && ParentIsDir(old(tree), to) && old(tree)[from].Dir? ==> r.Done?
      ensures reliable && CanPlace(old(tree), to, temp) && old(tree)[from].File?
              && (to in old(tree) ==> !targetAbsent && old(tree)[to].File?) ==>
        r.Done?
    {
      var srcDir := tree[from].Dir?;
      var ok, cleaned;
      if srcDir {
        ok, cleaned := CopyTree(from, to);
        SafeWhileCopyingTree(old(tree), old(seen), seen, tree, from, to, temp);
      } else {
        ok, cleaned := CopyFileViaTemp(from, to, targetAbsent, temp);
        SafeWhileCopyingFile(old(tree), old(seen), seen, tree, from, to, temp, ok);
      }
      if !ok {
        return Failed(Other);
      }
      ghost var copied, sofar := tree, seen;
      if srcDir {
        assert SameAt(old(tree), tree, from);
        ok := RemoveTree(from);
      } else {
        FileCopied(old(tree), from, tree, to);
        FilesAreApart(tree, from, to);
        ok := Unlink(from);
        FileRemoved(copied, tree, from, ok);
      }
      SafeWhileRemoving(old(tree), copied, sofar, seen, tree, from, to);
      ElsewhereGoesOn(old(tree), copied, sofar, seen, |old(seen)|, tree, from, to, temp);
      r := if ok then Done else Failed(EIO);
    }

    // ---- Rename and copy --------------------------------------------------------------------------------

    /** rename(2): atomic; refused, or refused for crossing devices. */
    method RawRename(from: Path, to: Path, noReplace: bool) returns (r: RenameResult)
      requires WellFormed(tree) && from in tree && from != [] && from != to
      requires tree[from].Dir? ==> to !in tree && Apart(from, to)
      modifies this
      ensures WellFormed(tree)
      ensures r != Renamed ==> tree == old(tree) && seen == old(seen)
      ensures r == Renamed ==> seen == old(seen) + [tree] && Copied(old(tree), from, tree, to) && NothingAt(tree, from)
      ensures r == Renamed ==> forall q: Path :: !(from <= q) && !(to <= q) ==> SameAt(old(tree), tree, q)
      ensures reliable && ParentIsDir(old(tree), to) && (to in old(tree) ==> !noReplace && old(tree)[to].File?) ==>
        r != Refused
    {
      var crossing: bool := *;
      if crossing {
        return CrossDevice;
      }
      if tree[from].File? {
        var ok := RenameFile(from, to, noReplace);
        if ok {
          FileCopied(old(tree), from, tree, to);
          FileRenamed(old(tree), tree, from, to);
        }
        return if ok then Renamed else Refused;
      }
      var ok := Call();
      if !ok || !ParentIsDir(tree, to) {
        return Refused;
      }
      AncestorsOfAll(tree, to);
      DirMoved(tree, from, to);
      MovedWellFormed(tree, from, to);
      tree := Moved(tree, from, to);
      seen := seen + [tree];
      r := Renamed;
    }

    /** Moving a file or directory. canRenameDirs is a property of the storage. */
    method Rename(from: Path, to: Path, replace: bool, canRenameDirs: bool, temp: Path) returns (r: Outcome)
      requires WellFormed(tree) && IsNormal(from) && IsNormal(to) && temp != to
      modifies this
      ensures WellFormed(tree) && old(seen) <= seen
      ensures AllSafe(seen, |old(seen)|, old(tree), from, to) && Safe(old(tree), tree, from, to)
      ensures AllElsewhere(seen, |old(seen)|, old(tree), from, to, temp) && Elsewhere(old(tree), tree, from, to, temp)
      ensures r == Failed(Other) ==> Copied(old(tree), from, tree, from)
      ensures r == Failed(EIO) ==> Copied(old(tree), from, tree, to)
      ensures r.Done? && from != to ==> Copied(old(tree), from, tree, to) && NothingAt(tree, from)
      ensures r.Failed? && r.code != Other && r.code != EIO ==> tree == old(tree) && seen == old(seen)
      ensures var refusal := MoveRefusal(old(tree), from, to, replace);
        && (refusal.Failed? ==> (r == refusal || r == Failed(Other)) && tree == old(tree) && seen == old(seen))
        && (r.Failed? && r.code != Other && r.code != EIO ==> r == refusal)
        && (reliable && refusal.Failed? ==> r == refusal)
      ensures !replace && from != to && old(to in tree) ==> r.Failed? && tree == old(tree) && seen == old(seen)
      ensures from != to && old(to in tree && tree[to].Dir?) ==> r.Failed? && tree == old(tree) && seen == old(seen)
      ensures old(to in tree && from in tree && tree[from].Dir?) && from != to ==>
        r.Failed? && tree == old(tree) && seen == old(seen)
      ensures old(from in tree && tree[from].Dir?) && from < to ==> r.Failed? && tree == old(tree) && seen == old(seen)
      ensures reliable && MoveRefusal(old(tree), from, to, replace).Done? && CanPlace(old(tree), to, temp) ==> r.Done?
    {
      assert Copied(tree, from, tree, from);
      var ok := Call();
      if !ok {
        return Failed(Other);
      }
      if from !in tree {
        return Failed(ENOENT);
      }
      if from == to {
        ok := Call();
        return if ok then Done else Failed(Other);
      }
      var srcDir := tree[from].Dir?;
      InsideIffProperPrefix(from, to);
      if srcDir && IsInside(PathText(from), PathText(to)) {
        return Failed(EINVAL);
      }
      ok := Call();
      if !ok {
        return Failed(Other);
      }
      var targetAbsent := to !in tree;
      if !targetAbsent {
        if !replace {
          return Failed(EEXIST);
        }
        if tree[to].Dir? {
          return Failed(EISDIR);
        }
        if srcDir {
          return Failed(ENOTDIR);
        }
      }
      if srcDir {
        NewIsApart(tree, tree, from, to);
      }
      if !srcDir || canRenameDirs {
        NotTheRoot(tree, from, to);
        var raw := RawRename(from, to, targetAbsent);
        if raw == Renamed {
          return Done;
        }
        if raw == Refused {
          return Failed(Other);
        }
      }
      NotTheRoot(tree, from, to);
      r := MoveByCopy(from, to, targetAbsent, temp);
    }

    /** Copying a file or, if asked to recurse, a directory. */
    method Copy(from: Path, to: Path, recurse: bool, replace: bool, temp: Path)
      returns (r: Outcome, cleaned: bool)
      requires WellFormed(tree) && IsNormal(from) && IsNormal(to) && temp != to
      modifies this
      ensures WellFormed(tree) && old(seen) <= seen
      ensures r.Done? ==> Copied(old(tree), from, tree, to) && AgreeOutside(old(tree), tree, to)
      ensures r.Failed? && cleaned ==> tree == old(tree)
      ensures forall q: Path :: !(to <= q) && q != temp ==> SameAt(old(tree), tree, q)
      ensures forall i, q: Path ::
        |old(seen)| <= i < |seen| && !(to <= q) && q != temp ==> SameAt(old(tree), seen[i], q)
      ensures r.Failed? && old(to in tree) ==> SameAt(old(tree), tree, to)
      ensures old(to in tree && tree[to].Dir?) || (r.Failed? && r.code != Other) ==> tree == old(tree)
      ensures var refusal := CopyRefusal(old(tree), from, to, recurse, replace);
        && (refusal.Failed? ==> (r == refusal || r == Failed(Other)) && tree == old(tree) && seen == old(seen))
        && (r.Failed? && r.code != Other ==> r == refusal)
        && (reliable && refusal.Failed? ==> r == refusal)
      ensures !replace && old(to in tree) ==> r.Failed? && tree == old(tree) && seen == old(seen)
      ensures !recurse && old(from in tree && tree[from].Dir?) ==> r.Failed? && tree == old(tree) && seen == old(seen)
      ensures old(to in tree && from in tree && tree[from].Dir?) ==> r.Failed? && tree == old(tree) && seen == old(seen)
      ensures reliable ==> cleaned
      ensures reliable && CopyRefusal(old(tree), from, to, recurse, replace).Done? && CanPlace(old(tree), to, temp) ==>
        r.Done?
    {
      cleaned := true;
      var ok := Call();
      if !ok {
        return Failed(Other), true;
      }
      if from !in tree {
        return Failed(ENOENT), true;
      }
      var srcDir := tree[from].Dir?;
      if srcDir && !recurse {
        return Failed(EISDIR), true;
      }
      InsideIffProperPrefix(from, to);
      if srcDir && (from == to || IsInside(PathText(from), PathText(to))) {
        return Failed(EINVAL), true;
      }
      ok := Call();
      if !ok {
        return Failed(Other), true;
      }
      if to in tree {
        if !replace {
          return Failed(EEXIST), true;
        }
        if tree[to].Dir? {
          return Failed(EISDIR), true;
        }
        if srcDir {
          return Failed(ENOTDIR), true;
        }
      }
      if srcDir {
        ok, cleaned := CopyTree(from, to);
      } else if from == to {
        assert Copied(tree, from, tree, to);
        return Done, true;
      } else {
        ok, cleaned := CopyFileViaTemp(from, to, to !in tree, temp);
        if ok {
          FileCopied(old(tree), from, tree, to);
        }
      }
      r := if ok then Done else Failed(Other);
    }
  }

  /** Why a target that is there may not be replaced. */
  function TargetRefusal(t: Tree, srcDir: bool, to: Path, replace: bool): Outcome {
    if to !in t then Done
    else if !replace then Failed(EEXIST)
    else if t[to].Dir? then Failed(EISDIR)
    else if srcDir then Failed(ENOTDIR)
    else Done
  }

  /** Why a move is refused on the state of the tree alone, the first reason first. */
  function MoveRefusal(t: Tree, from: Path, to: Path, replace: bool): Outcome {
    if from !in t then Failed(ENOENT)
    else if from == to then Done
    else if t[from].Dir? && from < to then Failed(EINVAL)
    else TargetRefusal(t, t[from].Dir?, to, replace)
  }

  function CopyRefusal(t: Tree, from: Path, to: Path, recurse: bool, replace: bool): Outcome {
    if from !in t then Failed(ENOENT)
    else if t[from].Dir? && !recurse then Failed(EISDIR)
    else if t[from].Dir? && from <= to then Failed(EINVAL)
    else TargetRefusal(t, t[from].Dir?, to, replace)
  }

  lemma FileRenamed(t: Tree, t': Tree, from: Path, to: Path)
    requires WellFormed(t) && from in t && t[from].File? && from != to && t' == (t - {from})[to := t[from]]
    requires WellFormed(t')
    ensures NothingAt(t', from)
    ensures forall q: Path :: !(from <= q) && !(to <= q) ==> SameAt(t, t', q)
  {
    AncestorsOfAll(t', from);
  }

  /** The root cannot be moved: everything is inside it. */
  lemma NotTheRoot(t: Tree, from: Path, to: Path)
    requires WellFormed(t) && from in t && from != to && (t[from].Dir? ==> !(from < to))
    ensures from != []
  {
  }

  /** The moved data is all where it was, or a complete copy is where it is to go. */
  ghost predicate Safe(t: Tree, s: Tree, from: Path, to: Path) {
    Copied(t, from, s, from) || Copied(t, from, s, to)
  }

  /** Nothing but what is at and below from and to, and temp, is different. */
  ghost predicate Elsewhere(t: Tree, t': Tree, from: Path, to: Path, temp: Path) {
    forall q: Path :: !(from <= q) && !(to <= q) && q != temp ==> SameAt(t, t', q)
  }

  ghost predicate AllElsewhere(seen: seq<Tree>, k: nat, t: Tree, from: Path, to: Path, temp: Path) {
    forall i | k <= i < |seen| :: Elsewhere(t, seen[i], from, to, temp)
  }

  lemma ElsewhereGoesOn(t: Tree, copied: Tree, s: seq<Tree>, s': seq<Tree>, k: nat, t': Tree, from: Path, to: Path,
                        temp: Path)
    requires k <= |s| && AllElsewhere(s, k, t, from, to, temp) && Elsewhere(t, copied, from, to, temp)
    requires s <= s' && AllOutside(s', |s|, copied, from) && AgreeOutside(copied, t', from)
    ensures AllElsewhere(s', k, t, from, to, temp) && Elsewhere(t, t', from, to, temp)
  {
    forall u: Tree | AgreeOutside(copied, u, from)
      ensures Elsewhere(t, u, from, to, temp)
    {
      forall q: Path | !(from <= q) && !(to <= q) && q != temp
        ensures SameAt(t, u, q)
      {
        assert SameAt(t, copied, q) && SameAt(copied, u, q);
      }
    }
    forall i | k <= i < |s'|
      ensures Elsewhere(t, s'[i], from, to, temp)
    {
      if i < |s| {
        assert s'[i] == s[i];
      }
    }
  }

  ghost predicate AllSafe(seen: seq<Tree>, k: nat, t: Tree, from: Path, to: Path) {
    forall i | k <= i < |seen| :: Safe(t, seen[i], from, to)
  }

  lemma SafeWhileCopyingTree(t: Tree, s: seq<Tree>, s': seq<Tree>, t': Tree, from: Path, to: Path, temp: Path)
    requires s <= s' && AllOutside(s', |s|, t, to) && AgreeOutside(t, t', to)
    requires (s' != s ==> Apart(to, from)) && (s' == s ==> t' == t)
    ensures AllSafe(s', |s|, t, from, to) && Copied(t, from, t', from)
    ensures AllElsewhere(s', |s|, t, from, to, temp) && Elsewhere(t, t', from, to, temp)
  {
    if s' != s {
      forall i | |s| <= i < |s'|
        ensures Safe(t, s'[i], from, to)
      {
        CopiedElsewhere(t, s'[i], to, from);
      }
      CopiedElsewhere(t, t', to, from);
    } else {
      assert Copied(t, from, t, from);
    }
  }

  lemma SafeWhileCopyingFile(t: Tree, s: seq<Tree>, s': seq<Tree>, t': Tree, from: Path, to: Path, temp: Path, ok: bool)
    requires WellFormed(t) && WellFormed(t') && from in t && t[from].File? && s <= s'
    requires forall i | |s| <= i < |s'| :: AgreeExcept(t, s'[i], temp) || (ok && s'[i] == t')
    requires ok ==> Replaced(t, t', to, t[from].data)
    requires !ok ==> AgreeExcept(t, t', temp)
    requires (s' != s ==> !(from <= temp)) && (s' == s ==> t' == t && !ok)
    ensures AllSafe(s', |s|, t, from, to) && Safe(t, t', from, to) && (!ok ==> Copied(t, from, t', from))
    ensures AllElsewhere(s', |s|, t, from, to, temp) && Elsewhere(t, t', from, to, temp)
  {
    if ok {
      FileCopied(t, from, t', to);
    }
    if s' == s {
      assert Copied(t, from, t, from);
    } else {
      forall u: Tree | AgreeExcept(t, u, temp)
        ensures Copied(t, from, u, from)
      {
        forall r: Path
          ensures CopyAt(t, from, u, from, r)
        {
          assert SameAt(t, u, from + r);
        }
      }
    }
  }

  lemma SafeWhileRemoving(t: Tree, copied: Tree, s: seq<Tree>, s': seq<Tree>, t': Tree, from: Path, to: Path)
    requires Copied(t, from, copied, to) && Apart(from, to)
    requires s <= s' && AllOutside(s', |s|, copied, from) && AgreeOutside(copied, t', from)
    ensures AllSafe(s', |s|, t, from, to) && Safe(t, t', from, to) && Copied(t, from, t', to)
  {
    forall u: Tree | AgreeOutside(copied, u, from)
      ensures Copied(t, from, u, to)
    {
      CopiedElsewhere(copied, u, from, to);
      CopiedTrans(t, from, copied, to, u, to);
    }
  }

  lemma FilesHaveNothingBelow(t: Tree, p: Path, q: Path)
    requires WellFormed(t) && p in t && q in t && t[p].File? && p != q
    ensures !(p <= q)
  {
    if p <= q {
      AncestorsAreThere(t, p, q);
    }
  }

  lemma FilesAreApart(t: Tree, p: Path, q: Path)
    requires WellFormed(t) && p in t && q in t && t[p].File? && t[q].File? && p != q
    ensures Apart(p, q)
  {
    if p <= q {
      AncestorsAreThere(t, p, q);
    }
    if q <= p {
      AncestorsAreThere(t, q, p);
    }
  }

  lemma FileRemoved(t: Tree, t': Tree, p: Path, ok: bool)
    requires WellFormed(t) && p in t && t[p].File? && t' == if ok then t - {p} else t
    ensures AgreeOutside(t, t', p) && (ok ==> NothingAt(t', p))
  {
    forall q | q in t && p <= q
      ensures q == p
    {
      AncestorsAreThere(t, p, q);
    }
  }
}
