/** A file tree, the system calls that change it, and paths as text. */
module FileTree {
  import opened Utils

  type Name = string
  type Path = seq<Name>
  type Byte = x: nat | x < 0x100

  datatype Node = File(data: seq<Byte>, mode: nat) | Dir

  type Tree = map<Path, Node>

  /** Everything is in a directory. */
  ghost predicate WellFormed(t: Tree) {
    [] in t && t[[]] == Dir && forall p | p in t && p != [] :: ParentIsDir(t, p)
  }

  predicate ParentIsDir(t: Tree, p: Path) { p != [] && p[..|p| - 1] in t && t[p[..|p| - 1]] == Dir }

  // ---- Comparing trees -----------------------------------------------------------------------------------

  predicate SameAt(t: Tree, t': Tree, p: Path) {
    (p in t <==> p in t') && (p in t ==> t[p] == t'[p])
  }

  /** The trees differ at most at one path. */
  ghost predicate AgreeExcept(t: Tree, t': Tree, p: Path) {
    forall q: Path :: q != p ==> SameAt(t, t', q)
  }

  /** The trees differ at most at and below a path. */
  ghost predicate AgreeOutside(t: Tree, t': Tree, p: Path) {
    forall q: Path :: !(p <= q) ==> SameAt(t, t', q)
  }

  /** Every tree from the k-th on differs from t at most at one path, or at and below it. */
  ghost predicate AllExcept(seen: seq<Tree>, k: nat, t: Tree, p: Path) {
    forall i | k <= i < |seen| :: AgreeExcept(t, seen[i], p)
  }

  ghost predicate AllOutside(seen: seq<Tree>, k: nat, t: Tree, p: Path) {
    forall i | k <= i < |seen| :: AgreeOutside(t, seen[i], p)
  }

  lemma ExceptGoesOn(s: seq<Tree>, s': seq<Tree>, k: nat, t: Tree, t': Tree, p: Path)
    requires k <= |s| && s <= s' && AllExcept(s, k, t, p) && AgreeExcept(t, t', p) && AllExcept(s', |s|, t', p)
    ensures AllExcept(s', k, t, p)
  {
    forall i | k <= i < |s'|
      ensures AgreeExcept(t, s'[i], p)
    {
      if i < |s| {
        assert s'[i] == s[i];
      } else {
        forall q: Path | q != p
          ensures SameAt(t, s'[i], q)
        {
          assert SameAt(t, t', q) && SameAt(t', s'[i], q);
        }
      }
    }
  }

  lemma OutsideGoesOn(s: seq<Tree>, s': seq<Tree>, k: nat, t: Tree, t': Tree, p: Path)
    requires k <= |s| && s <= s' && AllOutside(s, k, t, p) && AgreeOutside(t, t', p) && AllOutside(s', |s|, t', p)
    ensures AllOutside(s', k, t, p)
  {
    forall i | k <= i < |s'|
      ensures AgreeOutside(t, s'[i], p)
    {
      if i < |s| {
        assert s'[i] == s[i];
      } else {
        OutsideTrans(t, t', s'[i], p);
      }
    }
  }

  lemma OutsideTrans(t: Tree, t': Tree, t'': Tree, p: Path)
    requires AgreeOutside(t, t', p) && AgreeOutside(t', t'', p)
    ensures AgreeOutside(t, t'', p)
  {
    forall q: Path | !(p <= q)
      ensures SameAt(t, t'', q)
    {
      assert SameAt(t, t', q) && SameAt(t', t'', q);
    }
  }

  ghost predicate NothingAt(t: Tree, p: Path) { forall q | q in t :: !(p <= q) }

  predicate SameData(a: Node, b: Node) { a.Dir? == b.Dir? && (a.File? ==> a.data == b.data) }

  predicate CopyAt(t: Tree, p: Path, t': Tree, q: Path, r: Path) {
    (p + r in t <==> q + r in t') && (p + r in t ==> SameData(t[p + r], t'[q + r]))
  }

  /** What is at and below p in one tree is, names and data, at and below q in the other. */
  ghost predicate Copied(t: Tree, p: Path, t': Tree, q: Path) {
    forall r: Path :: CopyAt(t, p, t', q, r)
  }

  /** Nothing is new or different. */
  ghost predicate Shrunk(t: Tree, t': Tree) {
    forall q | q in t' :: q in t && t'[q] == t[q]
  }

  predicate Apart(p: Path, q: Path) { !(p <= q) && !(q <= p) }

  lemma PrefixTrans(p: Path, q: Path, x: Path)
    requires p <= q && q <= x
    ensures p <= x
  {
    assert x[..|p|] == q[..|p|];
  }

  lemma PrefixesOfOne(p: Path, q: Path, x: Path)
    requires p <= x && q <= x
    ensures p <= q || q <= p
  {
    assert p == x[..|p|] && q == x[..|q|];
    if |p| <= |q| {
      assert q[..|p|] == p;
    } else {
      assert p[..|q|] == q;
    }
  }

  lemma ApartBelow(p: Path, q: Path, r: Path)
    requires Apart(p, q)
    ensures !(p <= q + r) && Apart(p, q + r)
  {
    assert q <= q + r;
    if p <= q + r {
      PrefixesOfOne(p, q, q + r);
    }
    if q + r <= p {
      PrefixTrans(q, q + r, p);
    }
  }

  lemma ChildrenApart(p: Path, m: Name, n: Name)
    requires m != n
    ensures Apart(p + [m], p + [n])
  {
    assert (p + [m])[|p|] == m && (p + [n])[|p|] == n;
  }

  lemma ChildrenOfApart(p: Path, q: Path, n: Name)
    requires Apart(p, q)
    ensures Apart(p + [n], q + [n]) && Apart(p + [n], q) && Apart(p, q + [n])
  {
    ApartBelow(p, q, [n]);
    ApartBelow(q, p, [n]);
    ApartBelow(q, p + [n], []);
    assert p + [n] + [] == p + [n];
    ApartBelow(p + [n], q, [n]);
  }

  /** A child that lies below n's place stays where only n's changes. */
  lemma {:induction false} BelowChild(t: Tree, t': Tree, p: Path, n: Name)
    requires p + [n] in t' && forall q | q in t' && p <= q :: q in t
    ensures |Below(t', p + [n])| < |Below(t, p)|
  {
    assert p + [n] in Below(t, p) && p + [n] !in Below(t', p + [n]);
    forall q | q in Below(t', p + [n])
      ensures q in Below(t, p) - {p + [n]}
    {
      assert q[..|p|] == (p + [n])[..|p|] == p;
    }
    SubsetSize(Below(t', p + [n]), Below(t, p) - {p + [n]});
  }

  lemma BelowSame(start: Tree, t: Tree, from: Path, to: Path, n: Name)
    requires Apart(from, to) && from + [n] in t && AgreeOutside(start, t, to)
    ensures |Below(t, from + [n])| < |Below(start, from)|
  {
    forall q | q in t && from <= q
      ensures q in start
    {
      ApartBelow(to, from, q[|from|..]);
      assert q == from + q[|from|..];
      assert SameAt(start, t, q);
    }
    BelowChild(start, t, from, n);
  }

  lemma NothingElsewhere(t: Tree, t': Tree, p: Path, q: Path)
    requires AgreeOutside(t, t', p) && Apart(p, q) && NothingAt(t, q)
    ensures NothingAt(t', q)
  {
    CopiedElsewhere(t, t', p, q);
    forall x | x in t' && q <= x
      ensures x in t
    {
      assert x == q + x[|q|..];
      assert CopyAt(t, q, t', q, x[|q|..]);
    }
  }

  lemma NothingInside(t: Tree, p: Path)
    requires Below(t, p) == {}
    ensures forall n: Name :: NothingAt(t, p + [n])
  {
    forall n: Name, q | q in t && p + [n] <= q
      ensures q in Below(t, p)
    {
      assert p <= p + [n];
      PrefixTrans(p, p + [n], q);
    }
  }

  /** One more entry is copied and those before it are as they were. */
  lemma EntryCopied(start: Tree, before: Tree, t: Tree, from: Path, to: Path, n: Name, listed: seq<Name>, ok: bool)
    requires Apart(from, to) && AgreeOutside(start, before, to) && AgreeOutside(before, t, to + [n]) && n !in listed
    requires PartlyCopied(start, before, from, to, listed)
    requires ok ==> Copied(before, from + [n], t, to + [n])
    ensures AgreeOutside(start, t, to) && AgreeOutside(before, t, to) && SameAt(before, t, to)
    ensures ok ==> PartlyCopied(start, t, from, to, listed + [n])
  {
    OutsideWeaken(before, t, to, to + [n]);
    OutsideTrans(start, before, t, to);
    forall m: Name | m in listed
      ensures Copied(start, from + [m], t, to + [m])
    {
      ChildrenApart(to, n, m);
      CopiedElsewhere(before, t, to + [n], to + [m]);
      CopiedTrans(start, from + [m], before, to + [m], t, to + [m]);
    }
    forall m: Name | m !in listed && m != n
      ensures NothingAt(t, to + [m])
    {
      ChildrenApart(to, n, m);
      NothingElsewhere(before, t, to + [n], to + [m]);
    }
    if ok {
      ChildrenOfApart(to, from, n);
      CopiedElsewhere(start, before, to, from + [n]);
      CopiedTrans(start, from + [n], before, from + [n], t, to + [n]);
    }
  }

  /** The listed children of a directory are copied, and of the others there is nothing yet. */
  ghost predicate PartlyCopied(start: Tree, t: Tree, from: Path, to: Path, listed: seq<Name>) {
    forall n: Name ::
      if n in listed then Copied(start, from + [n], t, to + [n]) else NothingAt(t, to + [n])
  }

  lemma AllListedCopied(start: Tree, t: Tree, from: Path, to: Path, listed: seq<Name>)
    requires WellFormed(start) && WellFormed(t) && from in start && start[from] == Dir && to in t && t[to] == Dir
    requires PartlyCopied(start, t, from, to, listed) && forall n: Name :: n in listed <==> from + [n] in start
    ensures Copied(start, from, t, to)
  {
    forall n: Name
      ensures ChildCopied(start, from, t, to, n)
    {
    }
    ChildrenCopied(start, from, t, to);
  }

  /** Removing an empty directory. */
  lemma EmptyDirRemoved(t: Tree, t': Tree, p: Path)
    requires t' == t - {p} && Below(t, p) == {}
    ensures AgreeOutside(t, t', p) && NothingAt(t', p)
  {
    SelfOrBelow(t, p);
  }

  lemma SelfOrBelow(t: Tree, p: Path)
    ensures forall q | q in t && p <= q :: q == p || q in Below(t, p)
  {
  }

  lemma GoneStay(t: Tree, t': Tree, dir: Path, names: seq<Name>)
    requires Shrunk(t, t') && forall n | n in names :: NothingAt(t, dir + [n])
    ensures forall n | n in names :: NothingAt(t', dir + [n])
  {
  }

  /** With all its listed children gone a directory is empty. */
  lemma AllGone(t: Tree, t': Tree, dir: Path, names: seq<Name>)
    requires WellFormed(t') && Shrunk(t, t') && forall n: Name :: n in names <==> dir + [n] in t
    requires forall n | n in names :: NothingAt(t', dir + [n])
    ensures Below(t', dir) == {}
  {
    forall q | q in t' && dir < q
      ensures false
    {
      var p := dir + [q[|dir|]];
      assert p <= q;
      AncestorsAreThere(t', p, q);
    }
  }

  /** A directory just made cannot be above anything that was there. */
  lemma NewIsApart(t: Tree, t': Tree, from: Path, to: Path)
    requires WellFormed(t) && from in t && to !in t && !(from <= to)
    ensures Apart(from, to) && NothingAt(t, to)
  {
    AncestorsOfAll(t, to);
  }

  lemma AncestorsOfAll(t: Tree, p: Path)
    requires WellFormed(t)
    ensures forall q | q in t && p <= q :: p in t
  {
    forall q | q in t && p <= q
      ensures p in t
    {
      AncestorsAreThere(t, p, q);
    }
  }

  lemma NothingLeft(t: Tree, t': Tree, p: Path)
    requires AgreeOutside(t, t', p) && NothingAt(t, p) && NothingAt(t', p)
    ensures t == t'
  {
    forall q: Path
      ensures SameAt(t, t', q)
    {
    }
    assert forall q | q in t :: SameAt(t, t', q);
    assert forall q | q in t' :: SameAt(t, t', q);
  }

  lemma AllWeaken(seen: seq<Tree>, k: nat, t: Tree, p: Path, q: Path)
    requires AllOutside(seen, k, t, q) && p <= q
    ensures AllOutside(seen, k, t, p)
  {
    forall i | k <= i < |seen|
      ensures AgreeOutside(t, seen[i], p)
    {
      OutsideWeaken(t, seen[i], p, q);
    }
  }

  lemma OutsideWeaken(t: Tree, t': Tree, p: Path, q: Path)
    requires AgreeOutside(t, t', q) && p <= q
    ensures AgreeOutside(t, t', p)
  {
    forall x: Path | !(p <= x)
      ensures SameAt(t, t', x)
    {
      if q <= x {
        PrefixTrans(p, q, x);
      }
    }
  }

  /** What lies apart from where the trees differ is the same in both. */
  lemma CopiedElsewhere(t: Tree, t': Tree, p: Path, q: Path)
    requires AgreeOutside(t, t', p) && Apart(p, q)
    ensures Copied(t, q, t', q)
  {
    forall r: Path
      ensures CopyAt(t, q, t', q, r)
    {
      ApartBelow(p, q, r);
      assert SameAt(t, t', q + r);
    }
  }

  lemma CopiedTrans(t: Tree, p: Path, t': Tree, q: Path, t'': Tree, x: Path)
    requires Copied(t, p, t', q) && Copied(t', q, t'', x)
    ensures Copied(t, p, t'', x)
  {
    forall r: Path
      ensures CopyAt(t, p, t'', x, r)
    {
      assert CopyAt(t, p, t', q, r) && CopyAt(t', q, t'', x, r);
    }
  }

  /** A file is copied once another has its data: there is nothing below either. */
  lemma FileCopied(t: Tree, p: Path, t': Tree, q: Path)
    requires WellFormed(t) && WellFormed(t') && p in t && q in t'
    requires t[p].File? && t'[q].File? && t[p].data == t'[q].data
    ensures Copied(t, p, t', q)
  {
    forall r: Path
      ensures CopyAt(t, p, t', q, r)
    {
      if r == [] {
        assert p + r == p && q + r == q;
      } else {
        if p + r in t {
          AncestorsAreThere(t, p, p + r);
        }
        if q + r in t' {
          AncestorsAreThere(t', q, q + r);
        }
      }
    }
  }

  /** Two directories are copies once all their children are. */
  lemma ChildrenCopied(t: Tree, p: Path, t': Tree, q: Path)
    requires WellFormed(t) && WellFormed(t') && p in t && t[p] == Dir && q in t' && t'[q] == Dir
    requires forall n: Name :: ChildCopied(t, p, t', q, n)
    ensures Copied(t, p, t', q)
  {
    forall r: Path
      ensures CopyAt(t, p, t', q, r)
    {
      if r == [] {
        assert p + r == p && q + r == q;
      } else {
        var n := r[0];
        assert p + r == p + [n] + r[1..] && q + r == q + [n] + r[1..];
        assert ChildCopied(t, p, t', q, n);
        if p + [n] in t {
          assert CopyAt(t, p + [n], t', q + [n], r[1..]);
        } else {
          if p + r in t {
            AncestorsAreThere(t, p + [n], p + r);
          }
          assert q + [n] <= q + r;
        }
      }
    }
  }

  ghost predicate ChildCopied(t: Tree, p: Path, t': Tree, q: Path, n: Name) {
    if p + [n] in t then Copied(t, p + [n], t', q + [n]) else NothingAt(t', q + [n])
  }

  function Below(t: Tree, p: Path): set<Path> { set q | q in t && p < q }

  lemma BelowShrinks(t: Tree, t': Tree, p: Path, n: Name)
    requires p + [n] in t' && forall q | q in t' :: q in t
    ensures |Below(t', p + [n])| < |Below(t, p)|
  {
    assert p + [n] in Below(t, p) && p + [n] !in Below(t', p + [n]);
    assert Below(t', p + [n]) <= Below(t, p) - {p + [n]};
    SubsetSize(Below(t', p + [n]), Below(t, p) - {p + [n]});
  }

  /** Whatever is below a path is in the tree only along with the path. */
  lemma {:induction false} AncestorsAreThere(t: Tree, p: Path, q: Path)
    requires WellFormed(t) && q in t && p <= q
    ensures p in t && (p != q ==> t[p] == Dir)
    decreases |q|
  {
    if p != q {
      assert ParentIsDir(t, q);
      AncestorsAreThere(t, p, q[..|q| - 1]);
    }
  }

  // ---- Renaming a directory ------------------------------------------------------------------------------

  /** What is at and below one path is moved to another; names and contents stay. */
  function Moved(t: Tree, from: Path, to: Path): Tree {
    var stay := map q | q in t && !(from <= q) :: t[q];
    var keys := set q | q in t && from <= q :: to + q[|from|..];
    stay + map k | k in keys && from + k[|to|..] in t :: t[from + k[|to|..]]
  }

  predicate SameNode(t: Tree, p: Path, t': Tree, q: Path, r: Path) {
    (p + r in t <==> q + r in t') && (p + r in t ==> t[p + r] == t'[q + r])
  }

  lemma MovedAt(t: Tree, from: Path, to: Path, r: Path)
    requires NothingAt(t, to) && Apart(from, to)
    ensures var t' := Moved(t, from, to);
      (from + r in t <==> to + r in t') && (from + r in t ==> t[from + r] == t'[to + r]) && from + r !in t'
  {
    var keys := set q | q in t && from <= q :: to + q[|from|..];
    assert (to + r)[|to|..] == r && (from + r)[|from|..] == r;
    if from + r in t {
      assert to + (from + r)[|from|..] in keys;
    }
    assert to <= to + r && from <= from + r;
    forall q | q in t && from <= q
      ensures from + r != to + q[|from|..]
    {
      ApartBelow(from, to, q[|from|..]);
      assert from <= from + r;
    }
    assert from + r !in keys;
  }

  lemma DirMoved(t: Tree, from: Path, to: Path)
    requires WellFormed(t) && from in t && from != [] && NothingAt(t, to) && Apart(from, to) && ParentIsDir(t, to)
    ensures var t' := Moved(t, from, to);
      && MovedAlong(t, t', from, to) && Copied(t, from, t', to) && NothingAt(t', from)
      && (forall q: Path :: !(from <= q) && !(to <= q) ==> SameAt(t, t', q))
  {
    var t' := Moved(t, from, to);
    forall r: Path
      ensures SameNode(t, from, t', to, r) && CopyAt(t, from, t', to, r)
    {
      MovedAt(t, from, to, r);
    }
    forall r: Path
      ensures from + r !in t'
    {
      MovedAt(t, from, to, r);
    }
    NoContinuation(t', from);
  }

  lemma NoContinuation(t: Tree, p: Path)
    requires forall r: Path :: p + r !in t
    ensures NothingAt(t, p)
  {
    forall q: Path | p <= q
      ensures q !in t
    {
      assert q == p + q[|p|..];
    }
  }

  lemma MovedWellFormed(t: Tree, from: Path, to: Path)
    requires WellFormed(t) && from in t && from != [] && NothingAt(t, to) && Apart(from, to) && ParentIsDir(t, to)
    ensures WellFormed(Moved(t, from, to))
  {
    var t' := Moved(t, from, to);
    DirMoved(t, from, to);
    ParentsMoved(t, t', from, to);
  }

  ghost predicate MovedAlong(t: Tree, t': Tree, from: Path, to: Path) {
    && (forall r: Path :: SameNode(t, from, t', to, r))
    && (forall q: Path :: !(from <= q) && !(to <= q) ==> SameAt(t, t', q))
    && NothingAt(t', from)
  }

  lemma ParentsMoved(t: Tree, t': Tree, from: Path, to: Path)
    requires WellFormed(t) && from != [] && Apart(from, to) && ParentIsDir(t, to) && MovedAlong(t, t', from, to)
    ensures WellFormed(t')
  {
    assert !(from <= []) && !(to <= []);
    assert SameAt(t, t', []);
    forall p | p in t' && p != []
      ensures ParentIsDir(t', p)
    {
      if to <= p && to != p {
        assert p == to + p[|to|..];
        MovedParent(t, t', from, to, p[|to|..]);
      } else {
        ParentStays(t, t', from, to, p);
      }
    }
  }

  lemma ParentStays(t: Tree, t': Tree, from: Path, to: Path, p: Path)
    requires WellFormed(t) && MovedAlong(t, t', from, to) && p in t' && p != [] && ParentIsDir(t, to)
    requires p == to || !(to <= p)
    ensures ParentIsDir(t', p)
  {
    UpIsOutside(from, p);
    if p != to {
      assert SameAt(t, t', p) && ParentIsDir(t, p);
      UpIsOutside(to, p);
    }
    assert SameAt(t, t', p[..|p| - 1]);
  }

  /** Below the new place, parents moved along. */
  lemma MovedParent(t: Tree, t': Tree, from: Path, to: Path, r: Path)
    requires WellFormed(t) && r != [] && to + r in t' && from != []
    requires SameNode(t, from, t', to, r) && SameNode(t, from, t', to, r[..|r| - 1])
    ensures ParentIsDir(t', to + r)
  {
    var up := r[..|r| - 1];
    assert (from + r)[..|from + r| - 1] == from + up && (to + r)[..|to + r| - 1] == to + up;
    assert ParentIsDir(t, from + r);
  }

  lemma UpIsOutside(from: Path, p: Path)
    requires p != [] && !(from <= p)
    ensures !(from <= p[..|p| - 1])
  {
    var up := p[..|p| - 1];
    assert up <= p;
    if from <= up {
      PrefixTrans(from, up, p);
    }
  }

  // ---- Paths as text ---------------------------------------------------------------------------------------

  predicate IsComponent(c: Name) { c != "" && '/' !in c }

  predicate IsNormal(p: Path) { forall i | 0 <= i < |p| :: IsComponent(p[i]) }

  function Joined(p: Path): string {
    if p == [] then "" else "/" + p[0] + Joined(p[1..])
  }

  /** A normalised absolute path. */
  function PathText(p: Path): string { if p == [] then "/" else Joined(p) }

  /** path lies strictly inside dir, decided on the texts. */
  predicate IsInside(d: string, p: string) {
    if d == "/" then |p| > 1
    else |p| > |d| && p[..|d|] == d && p[|d|] == '/'
  }

  lemma {:induction false} JoinedPrefixIff(a: Path, b: Path)
    requires IsNormal(a) && IsNormal(b)
    ensures TextInside(Joined(a), Joined(b)) <==> a < b
    decreases |a|
  {
    if a == [] {
      assert b != [] ==> Joined(b)[0] == '/';
    } else if b == [] {
    } else {
      var x, y := Joined(a[1..]), Joined(b[1..]);
      if a[0] == b[0] {
        JoinedPrefixIff(a[1..], b[1..]);
        SamePrefix("/" + a[0], x, y);
        assert a < b <==> a[1..] < b[1..] by {
          assert a == [a[0]] + a[1..] && b == [b[0]] + b[1..];
        }
      } else if TextInside(Joined(a), Joined(b)) {
        FirstAgrees(a, b);
      }
    }
  }

  lemma SamePrefix(s: string, x: string, y: string)
    ensures TextInside(s + x, s + y) <==> TextInside(x, y)
  {
    if |y| > |x| {
      assert (s + y)[..|s + x|] == s + y[..|x|];
      assert (s + y)[|s + x|] == y[|x|];
      assert (s + y[..|x|])[|s|..] == y[..|x|] && (s + x)[|s|..] == x;
    }
  }

  predicate TextInside(s: string, t: string) { |t| > |s| && t[..|s|] == s && t[|s|] == '/' }

  /** The index of the next slash, or the length. */
  function NextSlash(s: string, k: nat): nat
    decreases |s| - k
  {
    if k >= |s| || s[k] == '/' then k else NextSlash(s, k + 1)
  }

  lemma {:induction false} ComponentEnds(a: Path, k: nat)
    requires IsNormal(a) && a != [] && 1 <= k <= 1 + |a[0]|
    ensures NextSlash(Joined(a), k) == 1 + |a[0]|
    decreases |a[0]| - k
  {
    if k <= |a[0]| {
      assert Joined(a)[k] == a[0][k - 1] && a[0][k - 1] in a[0];
      ComponentEnds(a, k + 1);
    } else if |a| > 1 {
      assert Joined(a[1..])[0] == '/';
    }
  }

  lemma {:induction false} SameNextSlash(s: string, t: string, k: nat)
    requires TextInside(s, t) && k <= |s|
    ensures NextSlash(s, k) == NextSlash(t, k)
    decreases |s| - k
  {
    if k < |s| {
      assert t[k] == t[..|s|][k];
      SameNextSlash(s, t, k + 1);
    }
  }

  /** A text that begins with another, up to a slash, has the same first component. */
  lemma FirstAgrees(a: Path, b: Path)
    requires IsNormal(a) && IsNormal(b) && a != [] && b != [] && TextInside(Joined(a), Joined(b))
    ensures a[0] == b[0]
  {
    var s, t, c, d := Joined(a), Joined(b), a[0], b[0];
    ComponentEnds(a, 1);
    ComponentEnds(b, 1);
    SameNextSlash(s, t, 1);
    assert s[1..1 + |c|] == c && t[1..1 + |d|] == d;
    assert t[..|s|][1..1 + |c|] == t[1..1 + |c|];
  }

  /** The test on texts holds exactly when the components of one path begin with all those of
      the other and go on. */
  lemma InsideIffProperPrefix(a: Path, b: Path)
    requires IsNormal(a) && IsNormal(b)
    ensures IsInside(PathText(a), PathText(b)) <==> a < b
  {
    JoinedPrefixIff(a, b);
    if a != [] {
      assert |Joined(a)| >= 2;
      if b == [] {
        assert |PathText(b)| == 1;
      }
    } else if b != [] {
      assert |b[0]| >= 1;
    }
  }
}
