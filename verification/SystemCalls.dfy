/**
 * The system calls the no-follow file system uses, over an inode tree and a descriptor table.
 * Every call may also fail for no visible reason: `fault` says which ones do. A failed call
 * changes nothing, except that a descriptor whose close fails is closed all the same.
 */
module SystemCalls {
  import opened Common
  import opened Disk

  datatype Errno = ENOENT | ENOTDIR | ELOOP | EISDIR | ENOTEMPTY | EEXIST | EINVAL | EIO | Closed | UnsafePath

  datatype FileType = Directory | Regular | SymbolicLink | OtherType

  datatype Stat = Stat(ino: Ino, fileType: FileType, nlink: nat)

  function StatOf(disk: Disk, ino: Ino): Stat
    requires ino in disk
  {
    match disk[ino]
    case Dir(_) => Stat(ino, Directory, 1)
    case File(nlink) => Stat(ino, Regular, nlink)
    case Symlink => Stat(ino, SymbolicLink, 1)
    case Special => Stat(ino, OtherType, 1)
  }

  /** The inode an entry names, when the directory is one and has the entry. */
  function Child(disk: Disk, dir: Ino, name: string): Option<Ino> {
    if dir in disk && disk[dir].Dir? && name in disk[dir].entries then Some(disk[dir].entries[name]) else None
  }

  /** Close of a file system handle: its root descriptor is closed once, and then marked as gone. */
  function CloseRoot(fds: map<int, Ino>, rootFD: int): (map<int, Ino>, int) {
    if rootFD < 0 then (fds, rootFD) else (fds - {rootFD}, -1)
  }

  method LowestFree(used: set<int>) returns (n: nat)
    ensures n !in used
  {
    n := 0;
    ghost var seen: set<int> := {};
    while n in used
      invariant seen <= used && forall k <- seen :: k < n
      decreases used - seen
    {
      seen := seen + {n};
      n := n + 1;
    }
  }

  class Kernel {
    var inodes: Disk
    var fds: map<int, Ino>
    var calls: nat
    const fault: nat -> bool
    ghost var rank: Ino -> nat

    constructor (disk: Disk, ghost rank: Ino -> nat, fault: nat -> bool)
      requires Tree(disk, rank) && LinksCover(disk)
      ensures Valid() && inodes == disk && fds == map[] && this.fault == fault
    {
      this.inodes, this.fds, this.calls, this.fault, this.rank := disk, map[], 0, fault, rank;
    }

    ghost predicate Valid()
      reads this
    {
      Tree(inodes, rank) && LinksCover(inodes) && forall fd <- fds :: fd >= 0 && fds[fd] in inodes
    }

    /** No call fails spontaneously. */
    ghost predicate Quiet() {
      forall i :: !fault(i)
    }

    method Faults() returns (failed: bool)
      modifies `calls
      ensures Quiet() ==> !failed
    {
      failed := fault(calls);
      calls := calls + 1;
    }

    method Close(fd: int) returns (err: Option<Errno>)
      requires Valid() && fd in fds
      modifies `calls, `fds
      ensures Valid() && fds == old(fds) - {fd}
      ensures Quiet() ==> err.None?
      ensures err != Some(ENOENT)
    {
      var failed := Faults();
      fds := fds - {fd};
      err := if failed then Some(EIO) else None;
    }

    method Dup(fd: int) returns (copy: int, err: Option<Errno>)
      requires Valid() && fd in fds
      modifies `calls, `fds
      ensures Valid()
      ensures err.None? ==> copy !in old(fds) && fds == old(fds)[copy := old(fds)[fd]]
      ensures err.Some? ==> fds == old(fds)
      ensures Quiet() ==> err.None?
      ensures err != Some(ENOENT)
    {
      var failed := Faults();
      if failed {
        return -1, Some(EIO);
      }
      copy := LowestFree(fds.Keys);
      fds := fds[copy := fds[fd]];
      err := None;
    }

    /** openat with O_NOFOLLOW, with or without O_DIRECTORY. */
    method Openat(dirFD: int, name: string, directory: bool) returns (fd: int, err: Option<Errno>)
      requires Valid() && dirFD in fds
      modifies `calls, `fds
      ensures Valid()
      ensures err.Some? ==> fds == old(fds)
      ensures var child := Child(inodes, old(fds)[dirFD], name);
              && (err.None? ==>
                    && fd !in old(fds) && child.Some? && child.value in inodes && fds == old(fds)[fd := child.value]
                    && !inodes[child.value].Symlink? && (directory ==> inodes[child.value].Dir?))
              && (err == Some(ENOENT) ==> child.None?)
              && (Quiet() && child.Some? && child.value in inodes && SafeNode(inodes[child.value])
                  && (directory ==> inodes[child.value].Dir?)
                  ==> err.None?)
              && (Quiet() && child.None? && inodes[old(fds)[dirFD]].Dir? ==> err == Some(ENOENT))
    {
      var failed := Faults();
      if failed {
        return -1, Some(EIO);
      }
      var dir := fds[dirFD];
      if !inodes[dir].Dir? {
        return -1, Some(ENOTDIR);
      }
      if name !in inodes[dir].entries {
        return -1, Some(ENOENT);
      }
      var ino := inodes[dir].entries[name];
      assert IsEntry(inodes, dir, name, ino);
      if inodes[ino].Symlink? {
        return -1, Some(ELOOP);
      }
      if directory && !inodes[ino].Dir? {
        return -1, Some(ENOTDIR);
      }
      fd := LowestFree(fds.Keys);
      fds := fds[fd := ino];
      err := None;
    }

    method Fstat(fd: int) returns (st: Stat, err: Option<Errno>)
      requires Valid() && fd in fds
      modifies `calls
      ensures err.None? ==> st == StatOf(inodes, fds[fd])
      ensures Quiet() ==> err.None?
      ensures err != Some(ENOENT)
    {
      var failed := Faults();
      st := StatOf(inodes, fds[fd]);
      err := if failed then Some(EIO) else None;
    }

    /** fstatat with AT_SYMLINK_NOFOLLOW. */
    method Fstatat(dirFD: int, name: string) returns (st: Stat, err: Option<Errno>)
      requires Valid() && dirFD in fds
      modifies `calls
      ensures var child := Child(inodes, fds[dirFD], name);
              && (err.None? ==> child.Some? && child.value in inodes && st == StatOf(inodes, child.value))
              && (err == Some(ENOENT) ==> child.None?)
              && (Quiet() && child.Some? ==> err.None?)
              && (Quiet() && child.None? && inodes[fds[dirFD]].Dir? ==> err == Some(ENOENT))
    {
      st := Stat(0, OtherType, 0);
      var failed := Faults();
      if failed {
        return st, Some(EIO);
      }
      var dir := fds[dirFD];
      if !inodes[dir].Dir? {
        return st, Some(ENOTDIR);
      }
      if name !in inodes[dir].entries {
        return st, Some(ENOENT);
      }
      assert IsEntry(inodes, dir, name, inodes[dir].entries[name]);
      st, err := StatOf(inodes, inodes[dir].entries[name]), None;
    }

    /** Readdirnames(-1): every entry once, in some order, without the dot entries. */
    method Readdirnames(fd: int) returns (names: seq<string>, err: Option<Errno>)
      requires Valid() && fd in fds && inodes[fds[fd]].Dir?
      modifies `calls
      ensures err.None? ==> (forall name :: name in names <==> name in inodes[fds[fd]].entries)
                            && forall i, j | 0 <= i < j < |names| :: names[i] != names[j]
      ensures Quiet() ==> err.None?
      ensures err != Some(ENOENT)
    {
      names := [];
      var failed := Faults();
      if failed {
        return names, Some(EIO);
      }
      var left := inodes[fds[fd]].entries.Keys;
      while left != {}
        invariant forall name :: name in inodes[fds[fd]].entries <==> name in names || name in left
        invariant forall name <- names :: name !in left
        invariant forall i, j | 0 <= i < j < |names| :: names[i] != names[j]
        decreases left
      {
        var name :| name in left;
        names, left := names + [name], left - {name};
      }
      err := None;
    }

    /** unlinkat of a name that is not a directory. */
    method Unlink(dirFD: int, name: string) returns (err: Option<Errno>)
      requires Valid() && dirFD in fds
      modifies `calls, `inodes
      ensures Valid()
      ensures err.Some? ==> inodes == old(inodes)
      ensures var dir := fds[dirFD]; var child := Child(old(inodes), dir, name);
              && (err.None? ==> child.Some? && child.value in old(inodes) && !old(inodes)[child.value].Dir?
                                && Unlinked(old(inodes), inodes, dir, name, child.value))
              && (err == Some(ENOENT) ==> child.None?)
              && (Quiet() && child.Some? && child.value in old(inodes) && !old(inodes)[child.value].Dir? ==> err.None?)
    {
      var failed := Faults();
      if failed {
        return Some(EIO);
      }
      var dir := fds[dirFD];
      if !inodes[dir].Dir? {
        return Some(ENOTDIR);
      }
      if name !in inodes[dir].entries {
        return Some(ENOENT);
      }
      var ino := inodes[dir].entries[name];
      assert IsEntry(inodes, dir, name, ino);
      if inodes[ino].Dir? {
        return Some(EISDIR);
      }
      ghost var before := inodes;
      inodes := inodes[dir := Dir(inodes[dir].entries - {name})];
      if inodes[ino].File? && inodes[ino].nlink > 0 {
        inodes := inodes[ino := File(inodes[ino].nlink - 1)];
      }
      assert Unlinked(before, inodes, dir, name, ino);
      ShrinksKeepsTree(before, inodes, rank);
      DropNameKeepsCover(before, inodes, dir, name, ino);
      err := None;
    }

    /** unlinkat with AT_REMOVEDIR. */
    method Rmdir(dirFD: int, name: string) returns (err: Option<Errno>)
      requires Valid() && dirFD in fds
      modifies `calls, `inodes
      ensures Valid()
      ensures err.Some? ==> inodes == old(inodes)
      ensures var dir := fds[dirFD]; var child := Child(old(inodes), dir, name);
              && (err.None? ==> child.Some? && child.value in old(inodes) && old(inodes)[child.value] == Dir(map[])
                                && dir in old(inodes) && old(inodes)[dir].Dir?
                                && inodes == old(inodes)[dir := Dir(old(inodes)[dir].entries - {name})])
              && (err == Some(ENOENT) ==> child.None?)
              && (Quiet() && child.Some? && child.value in old(inodes) && old(inodes)[child.value] == Dir(map[]) ==>
                  err.None?)
    {
      var failed := Faults();
      if failed {
        return Some(EIO);
      }
      var dir := fds[dirFD];
      if !inodes[dir].Dir? {
        return Some(ENOTDIR);
      }
      if name !in inodes[dir].entries {
        return Some(ENOENT);
      }
      var ino := inodes[dir].entries[name];
      assert IsEntry(inodes, dir, name, ino);
      if !inodes[ino].Dir? {
        return Some(ENOTDIR);
      }
      if inodes[ino].entries != map[] {
        return Some(ENOTEMPTY);
      }
      ghost var before := inodes;
      inodes := inodes[dir := Dir(inodes[dir].entries - {name})];
      ShrinksKeepsTree(before, inodes, rank);
      DropNameKeepsCover(before, inodes, dir, name, ino);
      err := None;
    }

    /** Adds a new inode under a new name: mkdirat, or openat with O_CREAT on an absent name. */
    method Create(dirFD: int, name: string, node: Inode) returns (err: Option<Errno>)
      requires Valid() && dirFD in fds && (node == Dir(map[]) || node == File(1))
      modifies `calls, `inodes, `rank
      ensures Valid()
      ensures err.Some? ==> inodes == old(inodes)
      ensures err.None? ==> Created(old(inodes), inodes, fds[dirFD], name, node)
      ensures var dir := fds[dirFD];
              Quiet() && old(inodes)[dir].Dir? && name !in old(inodes)[dir].entries ==> err.None?
    {
      var failed := Faults();
      if failed {
        return Some(EIO);
      }
      var dir := fds[dirFD];
      if !inodes[dir].Dir? {
        return Some(ENOTDIR);
      }
      if name in inodes[dir].entries {
        return Some(EEXIST);
      }
      var ino := LowestFree(inodes.Keys);
      ghost var before := inodes;
      ghost var was: Ino -> nat := rank;
      inodes := inodes[ino := node][dir := Dir(inodes[dir].entries[name := ino])];
      rank := (i: Ino) => if i == ino then 0 else was(i) + 1;
      forall d, n, i | IsEntry(inodes, d, n, i) ensures i in inodes && rank(i) < rank(d) {
        assert IsEntry(before, d, n, i) || (d == dir && n == name && i == ino);
      }
      CreatedKeepsCover(before, inodes, was, dir, name, ino, node);
      err := None;
    }

    /** openat with O_NOFOLLOW, O_CREAT if `create`, and write access if `write`. */
    method OpenatCreating(dirFD: int, name: string, create: bool, write: bool) returns (fd: int, err: Option<Errno>)
      requires Valid() && dirFD in fds
      modifies `calls, `fds, `inodes, `rank
      ensures Valid()
      ensures err.Some? ==> fds == old(fds)
      ensures err.None? ==> fd !in old(fds) && fd in fds && fds == old(fds)[fd := fds[fd]]
                            && Child(inodes, old(fds)[dirFD], name) == Some(fds[fd]) && !inodes[fds[fd]].Symlink?
      ensures inodes == old(inodes) || (create && Created(old(inodes), inodes, old(fds)[dirFD], name, File(1)))
      ensures Quiet() && Openable(old(inodes), old(fds)[dirFD], name, create, write) ==> err.None?
      ensures err.None? ==>
                && old(fds)[dirFD] in old(inodes) && old(inodes)[old(fds)[dirFD]].Dir?
                && match Child(old(inodes), old(fds)[dirFD], name)
                   case None => create
                   case Some(ino) => inodes == old(inodes) && (create || write ==> !inodes[fds[fd]].Dir?)
    {
      var dir := fds[dirFD];
      if create && Child(inodes, dir, name).None? {
        err := Create(dirFD, name, File(1));
        if err.Some? {
          return -1, err;
        }
      } else if (create || write) && Child(inodes, dir, name).Some? && Child(inodes, dir, name).value in inodes
             && inodes[Child(inodes, dir, name).value].Dir? {
        return -1, Some(EISDIR);
      }
      fd, err := Openat(dirFD, name, false);
    }

    /** Whether `ino` is `top` or under it: the check that keeps a rename from making a cycle. */
    method IsBelow(top: Ino, ino: Ino) returns (below: bool)
      requires Valid()
      ensures below == Below(inodes, rank, top, ino)
      decreases rank(top)
    {
      if ino == top {
        return true;
      }
      if top !in inodes || !inodes[top].Dir? {
        return false;
      }
      var entries := inodes[top].entries;
      var left := entries.Keys;
      while left != {}
        invariant left <= entries.Keys
        invariant forall name <- entries | name !in left :: !Below(inodes, rank, entries[name], ino)
        decreases left
      {
        var name :| name in left;
        assert IsEntry(inodes, top, name, entries[name]);
        below := IsBelow(entries[name], ino);
        if below {
          return;
        }
        left := left - {name};
      }
      below := false;
    }

    method Renameat(oldFD: int, oldName: string, newFD: int, newName: string) returns (err: Option<Errno>)
      requires Valid() && oldFD in fds && newFD in fds
      modifies `calls, `inodes, `rank
      ensures Valid()
      ensures err.Some? ==> inodes == old(inodes)
      ensures err.None? ==> Renamed(old(inodes), inodes, fds[oldFD], oldName, fds[newFD], newName)
      ensures Quiet() && Renamable(old(inodes), old(rank), fds[oldFD], oldName, fds[newFD], newName) ==> err.None?
    {
      var failed := Faults();
      if failed {
        return Some(EIO);
      }
      var from, to := fds[oldFD], fds[newFD];
      if !inodes[from].Dir? || !inodes[to].Dir? {
        return Some(ENOTDIR);
      }
      if oldName !in inodes[from].entries {
        return Some(ENOENT);
      }
      var ino := inodes[from].entries[oldName];
      assert IsEntry(inodes, from, oldName, ino);
      var cycle := IsBelow(ino, to);
      if cycle {
        return Some(EINVAL);
      }
      ghost var before := inodes;
      if newName in inodes[to].entries {
        var replaced := inodes[to].entries[newName];
        assert IsEntry(inodes, to, newName, replaced);
        if replaced == ino {
          return None;
        }
        if inodes[ino].Dir? && !inodes[replaced].Dir? {
          return Some(ENOTDIR);
        }
        if !inodes[ino].Dir? && inodes[replaced].Dir? {
          return Some(EISDIR);
        }
        if inodes[replaced].Dir? && inodes[replaced].entries != map[] {
          return Some(ENOTEMPTY);
        }
      }
      inodes := Unlinking(inodes, Child(inodes, to, newName));
      inodes := Moved(inodes, from, oldName, to, newName, ino);
      MovedIsRenamed(before, from, oldName, to, newName, ino);
      RenameKeepsTree(before, inodes, rank, ino, to, newName);
      MoveNameKeepsCover(before, inodes, from, oldName, to, newName, ino, Child(before, to, newName));
      rank := Reranked(before, rank, ino);
      err := None;
    }
  }

  /** A name that an open finds safe to open, or may create. */
  predicate Openable(disk: Disk, dir: Ino, name: string, create: bool, write: bool) {
    && dir in disk && disk[dir].Dir?
    && match Child(disk, dir, name)
       case None => create
       case Some(ino) => ino in disk && SafeNode(disk[ino]) && (create || write ==> disk[ino].File?)
  }

  /** A rename that makes no cycle and replaces nothing, or something of its own kind that is not a full directory. */
  ghost predicate Renamable(disk: Disk, rank: Ino -> nat, from: Ino, oldName: string, to: Ino, newName: string)
    requires Tree(disk, rank)
  {
    && from in disk && to in disk && disk[to].Dir?
    && var moved, replaced := Child(disk, from, oldName), Child(disk, to, newName);
    && moved.Some? && moved.value in disk && !Below(disk, rank, moved.value, to)
    && (replaced.Some? && replaced != moved ==>
          && replaced.value in disk
          && (disk[moved.value].Dir? <==> disk[replaced.value].Dir?)
          && (disk[replaced.value].Dir? ==> disk[replaced.value] == Dir(map[])))
  }

  /** The effect of adding a name: one new inode, under one new entry. */
  ghost predicate Created(before: Disk, after: Disk, dir: Ino, name: string, node: Inode) {
    && dir in before && before[dir].Dir? && name !in before[dir].entries
    && exists ino: Ino :: ino !in before && after == before[ino := node][dir := Dir(before[dir].entries[name := ino])]
  }

  lemma CreatedKeepsCover(before: Disk, after: Disk, rank: Ino -> nat, dir: Ino, name: string, ino: Ino, node: Inode)
    requires Tree(before, rank) && LinksCover(before) && ino !in before && (node == Dir(map[]) || node == File(1))
    requires dir in before && before[dir].Dir? && name !in before[dir].entries
    requires after == before[ino := node][dir := Dir(before[dir].entries[name := ino])]
    ensures LinksCover(after)
  {
    NewNameKeepsCover(before, after, rank, dir, name, ino);
  }

  /** The effect of removing a name: the entry goes, and a regular file loses a link. */
  predicate Unlinked(before: Disk, after: Disk, dir: Ino, name: string, ino: Ino)
  {
    && Shrinks(before, after)
    && dir in before && before[dir].Dir?
    && after[dir] == Dir(before[dir].entries - {name})
    && forall other <- before | other != dir && other != ino :: after[other] == before[other]
  }

  /**
   * The effect of a rename: the old name goes, the new name denotes what it denoted, and no other
   * entry changes; inodes keep their kind, and only a file whose name was replaced loses a link.
   */
  ghost predicate Renamed(before: Disk, after: Disk, from: Ino, oldName: string, to: Ino, newName: string)
  {
    var ino, replaced := Child(before, from, oldName), Child(before, to, newName);
    && ino.Some?
    && LosesAtMostALink(before, after, replaced)
    && (if replaced == ino then after == before else NameMoved(before, after, from, oldName, to, newName, ino.value))
  }

  /** A regular file that loses its name to a rename loses a link. */
  function Unlinking(disk: Disk, replaced: Option<Ino>): (r: Disk)
    ensures r.Keys == disk.Keys && forall dir, name :: Child(r, dir, name) == Child(disk, dir, name)
    ensures forall dir <- disk | disk[dir].Dir? :: r[dir] == disk[dir]
  {
    if replaced.Some? && replaced.value in disk && disk[replaced.value].File? && disk[replaced.value].nlink > 0
    then disk[replaced.value := File(disk[replaced.value].nlink - 1)] else disk
  }

  function Moved(disk: Disk, from: Ino, oldName: string, to: Ino, newName: string, ino: Ino): Disk
    requires from in disk && to in disk && disk[from].Dir? && disk[to].Dir?
  {
    var without := disk[from := Dir(disk[from].entries - {oldName})];
    without[to := Dir(without[to].entries[newName := ino])]
  }

  lemma MovedIsRenamed(before: Disk, from: Ino, oldName: string, to: Ino, newName: string, ino: Ino)
    requires from in before && to in before && before[from].Dir? && before[to].Dir?
    requires Child(before, from, oldName) == Some(ino) && Child(before, to, newName) != Some(ino)
    ensures var after := Moved(Unlinking(before, Child(before, to, newName)), from, oldName, to, newName, ino);
            Renamed(before, after, from, oldName, to, newName)
                && NameMoved(before, after, from, oldName, to, newName, ino)
  {
    var middle := Unlinking(before, Child(before, to, newName));
    var after := Moved(middle, from, oldName, to, newName, ino);
    forall dir, name, child
      ensures IsEntry(after, dir, name, child) <==>
              if dir == to && name == newName then child == ino
              else IsEntry(before, dir, name, child) && !(dir == from && name == oldName)
    {
      assert IsEntry(middle, dir, name, child) <==> IsEntry(before, dir, name, child);
    }
  }

  /** Ranks after moving `ino`: everything outside it is lifted above it. */
  ghost function Reranked(disk: Disk, rank: Ino -> nat, ino: Ino): (r: Ino -> nat)
    requires Tree(disk, rank)
    ensures forall x :: r(x) == if Below(disk, rank, ino, x) then rank(x) else rank(x) + rank(ino) + 1
  {
    (x: Ino) => if Below(disk, rank, ino, x) then rank(x) else rank(x) + rank(ino) + 1
  }

  lemma RenameKeepsTree(before: Disk, after: Disk, rank: Ino -> nat, ino: Ino, to: Ino, newName: string)
    requires Tree(before, rank) && ino in before && before.Keys == after.Keys && !Below(before, rank, ino, to)
    requires forall dir, name, child :: IsEntry(after, dir, name, child) ==>
               IsEntry(before, dir, name, child) || (dir == to && name == newName && child == ino)
    ensures Tree(after, Reranked(before, rank, ino))
  {
    var r := Reranked(before, rank, ino);
    forall dir, name, child | IsEntry(after, dir, name, child) ensures child in after && r(child) < r(dir) {
      if IsEntry(before, dir, name, child) {
        if Below(before, rank, ino, dir) {
          BelowExtends(before, rank, ino, dir, name, child);
        }
      } else {
        assert Below(before, rank, ino, ino);
      }
    }
  }

  lemma {:induction false} BelowExtends(disk: Disk, rank: Ino -> nat, top: Ino, dir: Ino, name: string, child: Ino)
    requires Tree(disk, rank) && Below(disk, rank, top, dir) && IsEntry(disk, dir, name, child)
    ensures Below(disk, rank, top, child)
    decreases rank(top)
  {
    if top == dir {
      assert Below(disk, rank, child, child);
    } else {
      var n, c :| IsEntry(disk, top, n, c) && Below(disk, rank, c, dir);
      BelowExtends(disk, rank, c, dir, name, child);
    }
  }
}
