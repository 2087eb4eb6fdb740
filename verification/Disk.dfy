/** The inode tree behind a payload root, and what it means to remove part of it. */
module Disk {
  import opened Common

  type Ino = nat

  datatype Inode = Dir(entries: map<string, Ino>) | File(nlink: nat) | Symlink | Special

  type Disk = map<Ino, Inode>

  predicate IsEntry(disk: Disk, dir: Ino, name: string, ino: Ino) {
    dir in disk && disk[dir].Dir? && name in disk[dir].entries && disk[dir].entries[name] == ino
  }

  /** Every entry names an inode of smaller rank, so directories form no cycle. */
  ghost predicate Tree(disk: Disk, rank: Ino -> nat) {
    forall dir, name, ino :: IsEntry(disk, dir, name, ino) ==> ino in disk && rank(ino) < rank(dir)
  }

  /** `ino` is `top` or lies under it. */
  ghost predicate Below(disk: Disk, rank: Ino -> nat, top: Ino, ino: Ino)
    requires Tree(disk, rank)
    decreases rank(top)
  {
    ino == top || exists name, child :: IsEntry(disk, top, name, child) && Below(disk, rank, child, ino)
  }

  /** What rejectUnsafeStat lets pass: a directory, or a regular file with a single name. */
  predicate SafeNode(node: Inode) {
    node.Dir? || (node.File? && node.nlink <= 1)
  }

  /** No symlink, hardlinked file or special file at or under `top`. */
  ghost predicate AllSafe(disk: Disk, rank: Ino -> nat, top: Ino)
    requires Tree(disk, rank)
    decreases rank(top)
  {
    && top in disk && SafeNode(disk[top])
    && forall name, child :: IsEntry(disk, top, name, child) ==> AllSafe(disk, rank, child)
  }

  lemma {:induction false} AllSafeMeans(disk: Disk, rank: Ino -> nat, top: Ino)
    requires Tree(disk, rank) && top in disk
    ensures AllSafe(disk, rank, top) <==> forall ino :: Below(disk, rank, top, ino) ==>
            ino in disk && SafeNode(disk[ino])
    decreases rank(top)
  {
    forall name, child | IsEntry(disk, top, name, child)
      ensures AllSafe(disk, rank, child)
         <==> forall ino :: Below(disk, rank, child, ino) ==> ino in disk && SafeNode(disk[ino])
    {
      AllSafeMeans(disk, rank, child);
    }
    assert Below(disk, rank, top, top);
    if AllSafe(disk, rank, top) {
      forall ino | Below(disk, rank, top, ino) ensures ino in disk && SafeNode(disk[ino]) {
        if ino != top {
          var name, child :| IsEntry(disk, top, name, child) && Below(disk, rank, child, ino);
        }
      }
    } else if SafeNode(disk[top]) {
      var name, child :| IsEntry(disk, top, name, child) && !AllSafe(disk, rank, child);
      var ino :| Below(disk, rank, child, ino) && !(ino in disk && SafeNode(disk[ino]));
      assert Below(disk, rank, top, ino);
    }
  }

  lemma {:induction false} BelowRank(disk: Disk, rank: Ino -> nat, top: Ino, ino: Ino)
    requires Tree(disk, rank) && Below(disk, rank, top, ino)
    ensures ino == top || rank(ino) < rank(top)
    ensures top in disk ==> ino in disk
    decreases rank(top)
  {
    if ino != top {
      var name, child :| IsEntry(disk, top, name, child) && Below(disk, rank, child, ino);
      BelowRank(disk, rank, child, ino);
    }
  }

  /* ---------- Disks that only lose entries ---------- */

  predicate NodeShrinks(before: Inode, after: Inode) {
    match before
    case Dir(entries) => after.Dir? && forall name <- after.entries ::
        name in entries && after.entries[name] == entries[name]
    case File(nlink) => after.File? && after.nlink <= nlink
    case _ => after == before
  }

  predicate Shrinks(before: Disk, after: Disk) {
    before.Keys == after.Keys && forall ino <- before :: NodeShrinks(before[ino], after[ino])
  }

  lemma ShrinksKeepsTree(before: Disk, after: Disk, rank: Ino -> nat)
    requires Tree(before, rank) && Shrinks(before, after)
    ensures Tree(after, rank)
    ensures forall dir, name, ino :: IsEntry(after, dir, name, ino) ==> IsEntry(before, dir, name, ino)
  {
    forall dir, name, ino | IsEntry(after, dir, name, ino) ensures IsEntry(before, dir, name, ino) {
      assert NodeShrinks(before[dir], after[dir]);
    }
  }

  lemma ShrinksIsTransitive(a: Disk, b: Disk, c: Disk)
    requires Shrinks(a, b) && Shrinks(b, c)
    ensures Shrinks(a, c)
  {
    forall ino <- a ensures NodeShrinks(a[ino], c[ino]) {
      assert NodeShrinks(a[ino], b[ino]) && NodeShrinks(b[ino], c[ino]);
    }
  }

  lemma {:induction false} BelowShrinks(before: Disk, after: Disk, rank: Ino -> nat, top: Ino, ino: Ino)
    requires Tree(before, rank) && Shrinks(before, after) && Tree(after, rank)
    requires Below(after, rank, top, ino)
    ensures Below(before, rank, top, ino)
    decreases rank(top)
  {
    if ino != top {
      ShrinksKeepsTree(before, after, rank);
      var name, child :| IsEntry(after, top, name, child) && Below(after, rank, child, ino);
      BelowShrinks(before, after, rank, child, ino);
      assert IsEntry(before, top, name, child);
    }
  }

  lemma {:induction false} AllSafeShrinks(before: Disk, after: Disk, rank: Ino -> nat, top: Ino)
    requires Tree(before, rank) && Shrinks(before, after) && Tree(after, rank)
    requires AllSafe(before, rank, top)
    ensures AllSafe(after, rank, top)
    decreases rank(top)
  {
    ShrinksKeepsTree(before, after, rank);
    assert NodeShrinks(before[top], after[top]);
    forall name, child | IsEntry(after, top, name, child) ensures AllSafe(after, rank, child) {
      assert IsEntry(before, top, name, child);
      AllSafeShrinks(before, after, rank, child);
    }
  }

  /** Nothing changed except at and under `top`. */
  ghost predicate OnlyUnder(before: Disk, after: Disk, rank: Ino -> nat, top: Ino)
    requires Tree(before, rank)
  {
    forall ino <- before | !Below(before, rank, top, ino) :: ino in after && after[ino] == before[ino]
  }

  /** Nothing changed except under the entry `name` of `dir`, and `dir` itself. */
  ghost predicate OnlyUnderEntry(before: Disk, after: Disk, rank: Ino -> nat, dir: Ino, name: string)
    requires Tree(before, rank)
  {
    forall ino <- before | ino != dir ::
      ino in after && (after[ino] == before[ino]
                       || exists child :: IsEntry(before, dir, name, child) && Below(before, rank, child, ino))
  }

  /** A change under one entry of a directory, after changes under the directory, is one under the directory. */
  lemma OnlyUnderExtends(start: Disk, before: Disk, after: Disk, rank: Ino -> nat, dir: Ino, name: string)
    requires Tree(start, rank) && Shrinks(start, before) && Tree(before, rank)
    requires OnlyUnder(start, before, rank, dir) && OnlyUnderEntry(before, after, rank, dir, name)
    ensures OnlyUnder(start, after, rank, dir)
  {
    ShrinksKeepsTree(start, before, rank);
    forall ino <- start | !Below(start, rank, dir, ino) ensures ino in after && after[ino] == start[ino] {
      assert before[ino] == start[ino];
      if after[ino] != before[ino] {
        var child :| IsEntry(before, dir, name, child) && Below(before, rank, child, ino);
        BelowShrinks(start, before, rank, child, ino);
        assert false;
      }
    }
  }

  /* ---------- Paths ---------- */

  /** The inode a path reaches from `start`, through directory entries only. */
  function Lookup(disk: Disk, start: Ino, path: seq<string>): Option<Ino> {
    if path == [] then Some(start)
    else
      match Lookup(disk, start, path[..|path| - 1])
      case None => None
      case Some(dir) =>
        if dir in disk && disk[dir].Dir? && path[|path| - 1] in disk[dir].entries
        then Some(disk[dir].entries[path[|path| - 1]]) else None
  }

  lemma {:induction false} LookupRank(disk: Disk, rank: Ino -> nat, start: Ino, path: seq<string>)
    requires Tree(disk, rank) && start in disk && Lookup(disk, start, path).Some?
    ensures Lookup(disk, start, path).value in disk
    ensures path != [] ==> rank(Lookup(disk, start, path).value) < rank(start)
  {
    if path != [] {
      LookupRank(disk, rank, start, path[..|path| - 1]);
      var dir := Lookup(disk, start, path[..|path| - 1]).value;
      assert IsEntry(disk, dir, path[|path| - 1], disk[dir].entries[path[|path| - 1]]);
    }
  }

  /** A directory, or a file of a single name, is the entry of at most one directory under one name. */
  ghost predicate SingleNames(disk: Disk) {
    forall d1, n1, d2, n2, ino ::
      IsEntry(disk, d1, n1, ino) && IsEntry(disk, d2, n2, ino) && ino in disk && SafeNode(disk[ino]) ==>
          d1 == d2 && n1 == n2
  }

  /* ---------- Link counts ---------- */

  /** The directory entries that name an inode. */
  ghost function NamesOf(disk: Disk, ino: Ino): set<(Ino, string)> {
    set d, n | d in disk && disk[d].Dir? && n in disk[d].entries && disk[d].entries[n] == ino :: (d, n)
  }

  /** A directory has at most one name, and a regular file at most as many as its link count says. */
  ghost predicate Covered(disk: Disk, ino: Ino)
    requires ino in disk
  {
    match disk[ino]
    case Dir(_) => |NamesOf(disk, ino)| <= 1
    case File(nlink) => |NamesOf(disk, ino)| <= nlink
    case _ => true
  }

  ghost predicate LinksCover(disk: Disk) {
    forall ino {:trigger Covered(disk, ino)} :: ino in disk ==> Covered(disk, ino)
  }

  lemma PairSize(names: set<(Ino, string)>, a: (Ino, string), b: (Ino, string))
    requires a in names && b in names && a != b
    ensures |names| >= 2
  {
    assert names == {a, b} + (names - {a, b});
  }

  /** Where link counts cover the names, a directory or singly linked file has one name. */
  lemma CoverMeansSingle(disk: Disk)
    requires LinksCover(disk)
    ensures SingleNames(disk)
  {
    forall d1: Ino, n1, d2: Ino, n2, ino: Ino
      | IsEntry(disk, d1, n1, ino) && IsEntry(disk, d2, n2, ino) && ino in disk && SafeNode(disk[ino])
      ensures d1 == d2 && n1 == n2
    {
      assert Covered(disk, ino);
      assert (d1, n1) in NamesOf(disk, ino) && (d2, n2) in NamesOf(disk, ino);
      if (d1, n1) != (d2, n2) {
        PairSize(NamesOf(disk, ino), (d1, n1), (d2, n2));
      }
    }
  }

  /** Inodes keep their kind, and only `ino` may lose a link. */
  predicate LosesAtMostALink(before: Disk, after: Disk, ino: Option<Ino>) {
    && before.Keys == after.Keys
    && forall i <- before ::
         match before[i]
         case Dir(_) => after[i].Dir?
         case File(nlink) => after[i].File? && nlink >= after[i].nlink >= nlink - if ino == Some(i) then 1 else 0
         case _ => after[i] == before[i]
  }

  /** Taking one name away, with at most one link of what it named, keeps link counts covering names. */
  lemma DropNameKeepsCover(before: Disk, after: Disk, dir: Ino, name: string, ino: Ino)
    requires LinksCover(before) && IsEntry(before, dir, name, ino) && LosesAtMostALink(before, after, Some(ino))
    requires forall d, n, i :: IsEntry(after, d, n, i) <==> IsEntry(before, d, n, i) && !(d == dir && n == name)
    ensures LinksCover(after)
  {
    forall i | i in after ensures Covered(after, i) {
      assert Covered(before, i);
      assert NamesOf(after, i) == NamesOf(before, i) - {(dir, name)} by {
        forall d: Ino, n ensures (d, n) in NamesOf(after, i) <==> (d, n) in NamesOf(before, i) - {(dir, name)} {
          assert (d, n) in NamesOf(after, i) <==> IsEntry(after, d, n, i);
          assert (d, n) in NamesOf(before, i) <==> IsEntry(before, d, n, i);
        }
      }
      if i == ino {
        assert (dir, name) in NamesOf(before, i);
      }
    }
  }

  /** A new inode under its one name keeps link counts covering names. */
  lemma NewNameKeepsCover(before: Disk, after: Disk, rank: Ino -> nat, dir: Ino, name: string, ino: Ino)
    requires Tree(before, rank) && LinksCover(before) && ino !in before && ino in after
    requires after[ino] == Dir(map[]) || after[ino] == File(1)
    requires LosesAtMostALink(before, after - {ino}, None)
    requires forall d, n, i :: IsEntry(after, d, n, i) <==>
             IsEntry(before, d, n, i) || (d == dir && n == name && i == ino)
    ensures LinksCover(after)
  {
    forall i | i in after ensures Covered(after, i) {
      forall d: Ino, n ensures (d, n) in NamesOf(after, i) <==>
          (d, n) in NamesOf(before, i) || (i == ino && d == dir && n == name) {
        assert (d, n) in NamesOf(after, i) <==> IsEntry(after, d, n, i);
        assert (d, n) in NamesOf(before, i) <==> IsEntry(before, d, n, i);
      }
      if i == ino {
        forall d: Ino, n ensures (d, n) !in NamesOf(before, i) {
          assert !IsEntry(before, d, n, i);
        }
        assert NamesOf(after, i) == {(dir, name)};
      } else {
        assert Covered(before, i);
        assert NamesOf(after, i) == NamesOf(before, i);
      }
    }
  }

  /** Name by name, what a move of `ino` from (from, oldName) to (to, newName) does. */
  ghost predicate NameMoved(before: Disk, after: Disk, from: Ino, oldName: string, to: Ino, newName: string, ino: Ino) {
    forall d, n, i :: IsEntry(after, d, n, i) <==>
      if d == to && n == newName then i == ino else IsEntry(before, d, n, i) && !(d == from && n == oldName)
  }

  lemma NamesAfterMove(before: Disk, after: Disk, from: Ino, oldName: string, to: Ino, newName: string, ino: Ino,
                       i: Ino)
    requires NameMoved(before, after, from, oldName, to, newName, ino) && IsEntry(before, from, oldName, ino)
    ensures NamesOf(after, i)
         == if i == ino then NamesOf(before, i) - {(from, oldName)} + {(to, newName)}
             else NamesOf(before, i) - {(to, newName)}
  {
    forall d: Ino, n
      ensures (d, n) in NamesOf(after, i) <==> IsEntry(after, d, n, i)
      ensures (d, n) in NamesOf(before, i) <==> IsEntry(before, d, n, i)
    {
    }
    var expected := if i == ino then NamesOf(before, i) - {(from, oldName)} + {(to, newName)}
        else NamesOf(before, i) - {(to, newName)};
    forall pair ensures pair in NamesOf(after, i) <==> pair in expected {
      var (d, n) := pair;
      assert IsEntry(before, from, oldName, i) ==> i == ino;
    }
  }

  /** Moving a name, over another one or not, keeps link counts covering names. */
  lemma MoveNameKeepsCover(
    before: Disk, after: Disk, from: Ino, oldName: string, to: Ino, newName: string, ino: Ino, replaced: Option<Ino>)
    requires LinksCover(before) && IsEntry(before, from, oldName, ino) && LosesAtMostALink(before, after, replaced)
    requires replaced != Some(ino)
    requires forall i: Ino :: IsEntry(before, to, newName, i) <==> replaced == Some(i)
    requires NameMoved(before, after, from, oldName, to, newName, ino)
    ensures LinksCover(after)
  {
    forall i | i in after ensures Covered(after, i) {
      assert Covered(before, i);
      NamesAfterMove(before, after, from, oldName, to, newName, ino, i);
      if i == ino {
        assert (from, oldName) in NamesOf(before, i);
      } else if replaced == Some(i) {
        assert IsEntry(before, to, newName, i);
        assert (to, newName) in NamesOf(before, i);
      }
    }
  }

  /* ---------- Paths in a disk whose inodes have single names ---------- */

  /** Two paths to the same directory, or to the same file of a single name, are the same path. */
  lemma {:induction false} PathsAreUnique(disk: Disk, rank: Ino -> nat, start: Ino, p: seq<string>, q: seq<string>,
                                          ino: Ino)
    requires Tree(disk, rank) && SingleNames(disk) && start in disk
    requires Lookup(disk, start, p) == Some(ino) == Lookup(disk, start, q)
    requires ino in disk && SafeNode(disk[ino])
    ensures p == q
    decreases |p|
  {
    LookupRank(disk, rank, start, p);
    LookupRank(disk, rank, start, q);
    if p != [] && q != [] {
      var p', q' := p[..|p| - 1], q[..|q| - 1];
      var d, e := Lookup(disk, start, p').value, Lookup(disk, start, q').value;
      assert IsEntry(disk, d, p[|p| - 1], ino) && IsEntry(disk, e, q[|q| - 1], ino);
      PathsAreUnique(disk, rank, start, p', q', d);
      assert p == p' + [p[|p| - 1]] && q == q' + [q[|q| - 1]];
    }
  }

  /** What is under a path's end is reached by extending the path. */
  lemma {:induction false} BelowIsReached(disk: Disk, rank: Ino -> nat, start: Ino, path: seq<string>, top: Ino,
                                          ino: Ino)
    returns (rest: seq<string>)
    requires Tree(disk, rank) && Lookup(disk, start, path) == Some(top) && Below(disk, rank, top, ino)
    ensures Lookup(disk, start, path + rest) == Some(ino)
    decreases rank(top)
  {
    if ino == top {
      rest := [];
      assert path + rest == path;
    } else {
      var name, child :| IsEntry(disk, top, name, child) && Below(disk, rank, child, ino);
      assert (path + [name])[..|path|] == path;
      var tail := BelowIsReached(disk, rank, start, path + [name], child, ino);
      rest := [name] + tail;
      assert path + rest == path + [name] + tail;
    }
  }

  /**
   * All that may happen when the entry `name` of `dir` is being removed: things at and under that
   * entry lose entries and links, and `dir` itself loses at most that entry.
   */
  ghost predicate Confined(before: Disk, after: Disk, rank: Ino -> nat, dir: Ino, name: string)
    requires Tree(before, rank)
  {
    && Shrinks(before, after)
    && OnlyUnderEntry(before, after, rank, dir, name)
    && dir in before && before[dir].Dir?
    && (after[dir] == before[dir] || after[dir] == Dir(before[dir].entries - {name}))
  }

  /** The entry `name` of `dir` is gone, and nothing changed outside it. */
  ghost predicate Removed(before: Disk, after: Disk, rank: Ino -> nat, dir: Ino, name: string)
    requires Tree(before, rank)
  {
    && Confined(before, after, rank, dir, name)
    && name in before[dir].entries && after[dir] == Dir(before[dir].entries - {name})
  }

  lemma {:induction false} LookupStops(disk: Disk, root: Ino, path: seq<string>, i: nat)
    requires i <= |path| && Lookup(disk, root, path[..i]) == None
    ensures Lookup(disk, root, path) == None
    decreases |path| - i
  {
    if i == |path| {
      assert path[..i] == path;
    } else {
      assert path[..i + 1][..i] == path[..i];
      LookupStops(disk, root, path, i + 1);
    }
  }

  /**
   * A confined change seen through paths: every path that is not at or under the target resolves
   * exactly as before, and what it resolves to is unchanged, but for the target's directory.
   */
  lemma {:induction false} OutsideIsUntouched(
    before: Disk, after: Disk, rank: Ino -> nat, root: Ino, target: seq<string>, dir: Ino, path: seq<string>)
    requires Tree(before, rank) && SingleNames(before) && root in before && target != [] && !(target <= path)
    requires Lookup(before, root, target[..|target| - 1]) == Some(dir)
    requires Confined(before, after, rank, dir, target[|target| - 1])
    ensures Lookup(after, root, path) == Lookup(before, root, path)
    ensures Lookup(before, root, path).Some? ==>
              var ino := Lookup(before, root, path).value;
              ino in before && ino in after && (SafeNode(before[ino]) && ino != dir ==> after[ino] == before[ino])
    decreases |path|
  {
    if path != [] {
      var init, last := path[..|path| - 1], path[|path| - 1];
      assert path == init + [last];
      OutsideIsUntouched(before, after, rank, root, target, dir, init);
      if Lookup(before, root, init).Some? {
        var at := Lookup(before, root, init).value;
        LookupRank(before, rank, root, init);
        if at == dir {
          PathsAreUnique(before, rank, root, init, target[..|target| - 1], dir);
          assert target == target[..|target| - 1] + [target[|target| - 1]];
        } else if !before[at].Dir? {
          assert NodeShrinks(before[at], after[at]);
        }
      }
    }
    if Lookup(before, root, path).Some? {
      NodeOutside(before, after, rank, root, target, dir, path);
    }
  }

  lemma NodeOutside(
    before: Disk, after: Disk, rank: Ino -> nat, root: Ino, target: seq<string>, dir: Ino, path: seq<string>)
    requires Tree(before, rank) && SingleNames(before) && root in before && target != [] && !(target <= path)
    requires Lookup(before, root, target[..|target| - 1]) == Some(dir)
    requires Confined(before, after, rank, dir, target[|target| - 1])
    requires Lookup(before, root, path).Some?
    ensures var ino := Lookup(before, root, path).value;
            ino in before && ino in after && (SafeNode(before[ino]) && ino != dir ==> after[ino] == before[ino])
  {
    var ino := Lookup(before, root, path).value;
    LookupRank(before, rank, root, path);
    if SafeNode(before[ino]) && ino != dir && after[ino] != before[ino] {
      var child :| IsEntry(before, dir, target[|target| - 1], child) && Below(before, rank, child, ino);
      var rest := BelowIsReached(before, rank, root, target, child, ino);
      PathsAreUnique(before, rank, root, path, target + rest, ino);
    }
  }

  /** Once the target's entry is gone, no path at or under the target resolves. */
  lemma InsideIsGone(
    before: Disk, after: Disk, rank: Ino -> nat, root: Ino, target: seq<string>, dir: Ino, path: seq<string>)
    requires Tree(before, rank) && SingleNames(before) && root in before && target != [] && target <= path
    requires Lookup(before, root, target[..|target| - 1]) == Some(dir)
    requires Removed(before, after, rank, dir, target[|target| - 1])
    ensures Lookup(after, root, path) == None
  {
    var parents := target[..|target| - 1];
    OutsideIsUntouched(before, after, rank, root, target, dir, parents);
    assert Lookup(after, root, target) == None;
    assert path[..|target|] == target;
    LookupStops(after, root, path, |target|);
  }
}
