/** The cgroup file system below the setter's cpuset root, and how the setter finds the
    directories of containers in it. */
module CgroupTree {
  import opened Wrappers
  import opened GoText

  /** The components of an absolute path. */
  type Path = seq<string>

  function Text(p: Path): string {
    if p == [] then "" else Text(p[..|p| - 1]) + "/" + p[|p| - 1]
  }

  /** filepath.Dir */
  function Parent(p: Path): Path {
    if p == [] then [] else p[..|p| - 1]
  }

  function Name(p: Path): string
    requires p != []
  {
    p[|p| - 1]
  }

  /** strings.Contains(path, containerID) */
  predicate Mentions(p: Path, cid: string) {
    Contains(Text(p), cid)
  }

  lemma ContainsExtended(front: string, back: string, sub: string)
    ensures Contains(front, sub) ==> Contains(front + back, sub)
    ensures Contains(back, sub) ==> Contains(front + back, sub)
  {
    if i :| 0 <= i <= |front| && OccursAt(front, sub, i) {
      assert (front + back)[i..i + |sub|] == front[i..i + |sub|];
      assert OccursAt(front + back, sub, i);
    }
    if i :| 0 <= i <= |back| && OccursAt(back, sub, i) {
      assert (front + back)[|front| + i..|front| + i + |sub|] == back[i..i + |sub|];
      assert OccursAt(front + back, sub, |front| + i);
    }
  }

  /** A text without the separator lies on one side of it. */
  lemma ContainsAcross(front: string, name: string, sub: string)
    requires Contains(front + "/" + name, sub)
    ensures '/' in sub || sub == "" || Contains(front, sub) || Contains(name, sub)
  {
    var s := front + "/" + name;
    var i :| 0 <= i <= |s| && OccursAt(s, sub, i);
    if i + |sub| <= |front| {
      assert front[i..i + |sub|] == s[i..i + |sub|];
      assert OccursAt(front, sub, i);
    } else if i > |front| {
      assert s[|front| + 1..] == name;
      assert name[i - |front| - 1..i - |front| - 1 + |sub|] == s[i..i + |sub|];
      assert OccursAt(name, sub, i - |front| - 1);
    } else if sub != "" {
      assert s[|front|] == '/';
      assert s[i..i + |sub|][|front| - i] == '/';
    }
  }

  /** What lies below a directory that mentions an ID mentions it too. */
  lemma {:induction false} MentionedBelow(p: Path, q: Path, cid: string)
    requires p <= q && Mentions(p, cid)
    ensures Mentions(q, cid)
  {
    if |p| < |q| {
      MentionedBelow(p, Parent(q), cid);
      ContainsExtended(Text(Parent(q)), "/" + Name(q), cid);
      assert Text(q) == Text(Parent(q)) + ("/" + Name(q));
    } else {
      assert p == q;
    }
  }

  lemma Inherited(p: Path, q: Path, cid: string)
    ensures p <= q && Mentions(p, cid) ==> Mentions(q, cid)
  {
    if p <= q && Mentions(p, cid) {
      MentionedBelow(p, q, cid);
    }
  }

  /** An ID without a slash first appears in the name of a directory. */
  lemma MentionedByName(p: Path, cid: string)
    requires p != [] && cid != "" && '/' !in cid
    ensures Mentions(p, cid) <==> Mentions(Parent(p), cid) || Contains(Name(p), cid)
  {
    if Mentions(p, cid) {
      ContainsAcross(Text(Parent(p)), Name(p), cid);
    }
    ContainsExtended(Text(Parent(p)) + "/", Name(p), cid);
    if Mentions(Parent(p), cid) {
      MentionedBelow(Parent(p), p, cid);
    }
  }

  /** The directories in the order in which filepath.Walk visits them. */
  datatype Tree = Tree(dirs: seq<Path>) {

    ghost predicate HasParent(i: nat)
      requires 0 < i < |dirs|
    {
      dirs[i] != [] && exists j :: 0 <= j < i && dirs[j] == Parent(dirs[i])
    }

    /** Directory j is directory i or lies below it. */
    predicate Below(i: nat, j: nat)
      requires i < |dirs| && j < |dirs|
    {
      dirs[i] <= dirs[j]
    }

    /** The root comes first, every other directory after its parent, and a directory is
        followed by all that lies below it. */
    ghost predicate Valid() {
      && dirs != []
      && (forall i, j | 0 <= i < j < |dirs| :: dirs[i] != dirs[j])
      && (forall i | 0 < i < |dirs| :: HasParent(i))
      && (forall i, j, k | 0 <= i < j < k < |dirs| && Below(i, k) :: Below(i, j))
    }

    /** The first directory of a branch that mentions the ID: the walk skips what is below. */
    ghost predicate IsTop(cid: string, i: nat)
      requires Valid() && i < |dirs|
    {
      Mentions(dirs[i], cid) && (i == 0 || !Mentions(Parent(dirs[i]), cid))
    }

    /** The last one among the first m directories. */
    ghost function LastTop(cid: string, m: nat): (top: Option<nat>)
      requires Valid() && m <= |dirs|
      ensures top.Some? ==> top.value < m && IsTop(cid, top.value)
      ensures forall i | 0 <= i < m && IsTop(cid, i) :: top.Some? && i <= top.value
    {
      if m == 0 then None else if IsTop(cid, m - 1) then Some(m - 1) else LastTop(cid, m - 1)
    }

    lemma {:induction false} TopAbove(cid: string, j: nat) returns (t: nat)
      requires Valid() && j < |dirs| && Mentions(dirs[j], cid)
      ensures t <= j && IsTop(cid, t) && Below(t, j)
    {
      if j == 0 || !Mentions(Parent(dirs[j]), cid) {
        t := j;
      } else {
        assert HasParent(j);
        var i :| 0 <= i < j && dirs[i] == Parent(dirs[j]);
        t := TopAbove(cid, i);
      }
    }

    lemma BelowTop(cid: string, t: nat, i: nat)
      requires Valid() && t < i < |dirs| && Mentions(dirs[t], cid) && Below(t, i)
      ensures !IsTop(cid, i)
    {
      assert HasParent(i);
      assert dirs[t] != dirs[i];
      assert dirs[t] <= Parent(dirs[i]);
      MentionedBelow(dirs[t], Parent(dirs[i]), cid);
    }

    /** No directory from i on lies below a top directory before i. */
    ghost predicate Skipped(cid: string, i: nat)
      requires Valid() && i <= |dirs|
    {
      forall t, j | 0 <= t < i <= j < |dirs| && IsTop(cid, t) :: !Below(t, j)
    }

    /** filepath.SkipDir: the next directory that is not below this one. */
    method SkipDir(i: nat) returns (next: nat)
      requires i < |dirs|
      ensures i < next <= |dirs|
      ensures forall j | i < j < next :: Below(i, j)
      ensures next < |dirs| ==> !Below(i, next)
    {
      next := i + 1;
      while next < |dirs| && Below(i, next)
        invariant i < next <= |dirs|
        invariant forall j | i < j < next :: Below(i, j)
      {
        next := next + 1;
      }
    }

    lemma {:induction false} NoTopBetween(cid: string, i: nat, next: nat)
      requires Valid() && i < next <= |dirs| && IsTop(cid, i)
      requires forall j | i < j < next :: Below(i, j)
      ensures LastTop(cid, next) == Some(i)
    {
      if next > i + 1 {
        NoTopBetween(cid, i, next - 1);
        BelowTop(cid, i, next - 1);
      }
    }

    lemma SkippedOn(cid: string, i: nat, next: nat)
      requires Valid() && i < next <= |dirs| && Skipped(cid, i) && IsTop(cid, i)
      requires LastTop(cid, next) == Some(i)
      requires next < |dirs| ==> !Below(i, next)
      ensures Skipped(cid, next)
    {
      forall t, j | 0 <= t < next <= j < |dirs| && IsTop(cid, t) ensures !Below(t, j) {
        assert t <= i;
      }
    }

    lemma NextIsTop(cid: string, i: nat)
      requires Valid() && i < |dirs| && Skipped(cid, i) && Mentions(dirs[i], cid)
      ensures IsTop(cid, i)
    {
      var t := TopAbove(cid, i);
    }

    /** The first walk of applyCpusetToContainer: the index of the directory it ends up
        with, after skipping the rest of every directory that mentions the ID. */
    method FindDirectory(cid: string) returns (found: Option<nat>)
      requires Valid()
      ensures found == LastTop(cid, |dirs|)
    {
      found := None;
      var i := 0;
      while i < |dirs|
        invariant 0 <= i <= |dirs|
        invariant found == LastTop(cid, i) && Skipped(cid, i)
      {
        if Mentions(dirs[i], cid) {
          NextIsTop(cid, i);
          found := Some(i);
          var next := SkipDir(i);
          NoTopBetween(cid, i, next);
          SkippedOn(cid, i, next);
          i := next;
        } else {
          i := i + 1;
        }
      }
    }

    /** The last directory at or below top among the first m. */
    ghost function LastBelow(top: Path, m: nat): (last: Option<nat>)
      requires m <= |dirs|
      ensures last.Some? ==> last.value < m && top <= dirs[last.value]
      ensures forall i | 0 <= i < m && top <= dirs[i] :: last.Some? && i <= last.value
    {
      if m == 0 then None else if top <= dirs[m - 1] then Some(m - 1) else LastBelow(top, m - 1)
    }

    /** The second walk, below a directory of the tree: the last directory visited. */
    method FindLast(top: nat) returns (last: nat)
      requires top < |dirs|
      ensures LastBelow(dirs[top], |dirs|) == Some(last)
    {
      last := top;
      for i := 0 to |dirs|
        invariant LastBelow(dirs[top], i) == if i <= top && LastBelow(dirs[top], i).None? then None else Some(last)
      {
        if dirs[top] <= dirs[i] {
          last := i;
        }
      }
    }

    /** Where the worker writes the CPU set of the container with this ID. */
    ghost function Target(cid: string): Option<Path>
      requires Valid()
    {
      match LastTop(cid, |dirs|)
      case None => None
      case Some(top) => Some(dirs[LastBelow(dirs[top], |dirs|).value])
    }

    // ---- Leaves ----

    predicate IsLeaf(p: Path) {
      p in dirs && forall q | q in dirs && p <= q :: p == q
    }

    /** All leaves, in the order in which `find` happens to list them. */
    ghost predicate IsLeafList(leaves: seq<Path>) {
      forall p :: p in leaves <==> IsLeaf(p)
    }

    /** The ID belongs to one directory, with at most one directory on each level below. */
    ghost predicate Owns(cid: string)
      requires Valid()
    {
      && (exists i :: 0 <= i < |dirs| && IsTop(cid, i))
      && (forall i, j | 0 <= i < |dirs| && 0 <= j < |dirs| && IsTop(cid, i) && IsTop(cid, j) :: i == j)
      && (forall p, q | p in dirs && q in dirs && Mentions(p, cid) && Mentions(q, cid) :: p <= q || q <= p)
    }

    lemma {:induction false} AncestorFirst(i: nat, j: nat)
      requires Valid() && i < |dirs| && j < |dirs| && Below(i, j)
      ensures i <= j
    {
      if j == 0 {
        if i > 0 {
          assert HasParent(i);
          RootShortest(i);
        }
      } else if dirs[i] != dirs[j] {
        assert HasParent(j);
        var k :| 0 <= k < j && dirs[k] == Parent(dirs[j]);
        AncestorFirst(i, k);
      }
    }

    lemma {:induction false} RootShortest(i: nat)
      requires Valid() && 0 < i < |dirs|
      ensures |dirs[0]| < |dirs[i]|
    {
      assert HasParent(i);
      var j :| 0 <= j < i && dirs[j] == Parent(dirs[i]);
      if j > 0 {
        RootShortest(j);
      }
    }

    /** With one top directory and one branch below it, the last directory of that
        branch lies below every directory that mentions the ID. */
    lemma BottomOfBranch(cid: string, q: Path)
      requires Valid() && Owns(cid) && q in dirs && Mentions(q, cid)
      ensures Target(cid).Some? && q <= Target(cid).value
    {
      var k :| 0 <= k < |dirs| && dirs[k] == q;
      var top := TopAbove(cid, k);
      assert LastTop(cid, |dirs|) == Some(top);
      BottomFrom(cid, top, k);
    }

    lemma BottomFrom(cid: string, top: nat, k: nat)
      requires Valid() && Owns(cid) && top < |dirs| && k < |dirs|
      requires Mentions(dirs[top], cid) && Mentions(dirs[k], cid) && Below(top, k)
      ensures dirs[k] <= dirs[LastBelow(dirs[top], |dirs|).value]
    {
      var last := LastBelow(dirs[top], |dirs|).value;
      MentionedBelow(dirs[top], dirs[last], cid);
      if Below(last, k) {
        AncestorFirst(last, k);
      }
    }

    lemma TargetMentions(cid: string)
      requires Valid() && Target(cid).Some?
      ensures Target(cid).value in dirs && Mentions(Target(cid).value, cid)
    {
      var top := LastTop(cid, |dirs|).value;
      MentionedBelow(dirs[top], Target(cid).value, cid);
    }

    /** The worker writes to the only leaf that mentions the ID, which is the one that the
        reconciler inspects. */
    lemma TargetIsTheLeaf(cid: string, p: Path)
      requires Valid() && Owns(cid)
      ensures Target(cid).Some?
      ensures IsLeaf(p) && Mentions(p, cid) <==> p == Target(cid).value
    {
      var i :| 0 <= i < |dirs| && IsTop(cid, i);
      BottomOfBranch(cid, dirs[i]);
      TargetMentions(cid);
      var target := Target(cid).value;
      forall q | q in dirs && target <= q ensures q == target {
        MentionedBelow(target, q, cid);
        BottomOfBranch(cid, q);
      }
      if IsLeaf(p) && Mentions(p, cid) {
        BottomOfBranch(cid, p);
      }
    }
  }
}
