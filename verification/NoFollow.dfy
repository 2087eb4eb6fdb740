/** The no-follow file system behind a WebDAV export (internal/exportgateway/nofollow_unix.go). */
module NoFollow {
  import opened Common
  import opened Disk
  import opened SystemCalls
  import opened Paths

  function RejectUnsafeStat(st: Stat): Option<Errno> {
    match st.fileType
    case SymbolicLink => Some(UnsafePath)
    case Regular => if st.nlink > 1 then Some(UnsafePath) else None
    case Directory => None
    case OtherType => Some(UnsafePath)
  }

  lemma RejectsExactlyUnsafe(disk: Disk, ino: Ino)
    requires ino in disk
    ensures RejectUnsafeStat(StatOf(disk, ino)).None? <==> SafeNode(disk[ino])
    ensures StatOf(disk, ino).fileType.Directory? <==> disk[ino].Dir?
  {
  }

  /* ---------- Validation ---------- */

  /** What validateTreeAt may answer about the entry `name` of `dir`. */
  ghost predicate ValidationSays(disk: Disk, rank: Ino -> nat, quiet: bool, dir: Ino, name: string, err: Option<Errno>)
    requires Tree(disk, rank)
  {
    var child := Child(disk, dir, name);
    && (err.None? ==> child.Some? && AllSafe(disk, rank, child.value))
    && (err == Some(ENOENT) ==> child.None?)
    && (quiet && child.Some? && AllSafe(disk, rank, child.value) ==> err.None?)
    && (quiet && child.None? && dir in disk && disk[dir].Dir? ==> err == Some(ENOENT))
  }

  /**
   * validateTreeAt: accepts only a tree of directories and singly linked files, accepts every such
   * tree when no call fails, reports ENOENT only for an absent entry, and leaves the disk and the
   * descriptor table as it found them.
   */
  method ValidateTreeAt(k: Kernel, parentFD: int, name: string) returns (err: Option<Errno>)
    requires k.Valid() && parentFD in k.fds
    modifies k`calls, k`fds
    ensures k.Valid() && k.fds == old(k.fds)
    ensures ValidationSays(k.inodes, k.rank, k.Quiet(), k.fds[parentFD], name, err)
    decreases k.rank(k.fds[parentFD]), 0
  {
    ghost var dir := k.fds[parentFD];
    var st;
    st, err := k.Fstatat(parentFD, name);
    if err.Some? {
      return;
    }
    RejectsExactlyUnsafe(k.inodes, st.ino);
    err := RejectUnsafeStat(st);
    if err.Some? {
      return;
    }
    assert IsEntry(k.inodes, dir, name, st.ino);
    if !st.fileType.Directory? {
      return;
    }
    var dirFD;
    dirFD, err := k.Openat(parentFD, name, true);
    if err.Some? {
      return;
    }
    ghost var withDir := k.fds;
    err := ValidateOpened(k, dirFD, st);
    var _ := k.Close(dirFD);
    assert withDir - {dirFD} == old(k.fds);
  }

  /** The part of validateTreeAt between opening a directory and its deferred close. */
  method ValidateOpened(k: Kernel, dirFD: int, st: Stat) returns (err: Option<Errno>)
    requires k.Valid() && dirFD in k.fds && k.inodes[k.fds[dirFD]].Dir? && st.ino == k.fds[dirFD]
    modifies k`calls, k`fds
    ensures k.Valid() && k.fds == old(k.fds)
    ensures err.None? ==> AllSafe(k.inodes, k.rank, k.fds[dirFD])
    ensures err != Some(ENOENT)
    ensures k.Quiet() && AllSafe(k.inodes, k.rank, k.fds[dirFD]) ==> err.None?
    decreases k.rank(k.fds[dirFD]), 1
  {
    ghost var dir := k.fds[dirFD];
    var found;
    found, err := k.Fstat(dirFD);
    if err.Some? {
      return;
    }
    if st.ino != found.ino || !found.fileType.Directory? {
      return Some(UnsafePath);
    }
    var names;
    names, err := k.Readdirnames(dirFD);
    if err.Some? {
      return;
    }
    for i := 0 to |names|
      invariant k.Valid() && k.fds == old(k.fds) && err.None?
      invariant forall j | 0 <= j < i :: Child(k.inodes, dir, names[j]).Some?
                                         && AllSafe(k.inodes, k.rank, Child(k.inodes, dir, names[j]).value)
    {
      assert names[i] in names;
      assert IsEntry(k.inodes, dir, names[i], Child(k.inodes, dir, names[i]).value);
      err := ValidateTreeAt(k, dirFD, names[i]);
      if err.Some? {
        return;
      }
    }
    forall name, child | IsEntry(k.inodes, dir, name, child) ensures AllSafe(k.inodes, k.rank, child) {
      assert name in names;
    }
  }

  /* ---------- Deletion ---------- */

  /** What deleteTreeAt may have done to the entry `name` of `dir`. */
  ghost predicate DeletionDid(before: Disk, after: Disk, rank: Ino -> nat, quiet: bool, dir: Ino, name: string,
                              err: Option<Errno>)
    requires Tree(before, rank)
  {
    var child := Child(before, dir, name);
    && Shrinks(before, after)
    && OnlyUnderEntry(before, after, rank, dir, name)
    && (err.None? ==> Removed(before, after, rank, dir, name))
    && (err.Some? ==> dir in after && dir in before && after[dir] == before[dir])
    && (err == Some(ENOENT) ==> child.None?)
    && (quiet && child.Some? && AllSafe(before, rank, child.value) ==> err.None?)
  }

  /** Nothing was done, and the error is not for want of the entry. */
  lemma NothingDone(disk: Disk, rank: Ino -> nat, dir: Ino, name: string)
    requires Tree(disk, rank)
    ensures Shrinks(disk, disk) && OnlyUnderEntry(disk, disk, rank, dir, name)
  {
  }

  lemma UnlinkedIsRemoved(before: Disk, after: Disk, rank: Ino -> nat, dir: Ino, name: string, ino: Ino)
    requires Tree(before, rank) && IsEntry(before, dir, name, ino) && Unlinked(before, after, dir, name, ino)
    ensures Removed(before, after, rank, dir, name)
  {
    assert Below(before, rank, ino, ino);
  }

  /** unlinkRegularAt: removes the entry, or changes nothing. */
  method UnlinkRegularAt(k: Kernel, parentFD: int, name: string, expected: Stat) returns (err: Option<Errno>)
    requires k.Valid() && parentFD in k.fds
    requires Child(k.inodes, k.fds[parentFD], name) == Some(expected.ino) && expected.ino in k.inodes
    requires k.inodes[expected.ino].File?
    modifies k`calls, k`fds, k`inodes
    ensures k.Valid() && k.fds == old(k.fds)
    ensures DeletionDid(old(k.inodes), k.inodes, k.rank, k.Quiet(), k.fds[parentFD], name, err)
  {
    ghost var dir := k.fds[parentFD];
    NothingDone(k.inodes, k.rank, dir, name);
    assert IsEntry(k.inodes, dir, name, expected.ino);
    var fd;
    fd, err := k.Openat(parentFD, name, false);
    if err.Some? {
      return;
    }
    ghost var open := k.fds;
    err := UnlinkOpened(k, parentFD, fd, name, expected);
    var _ := k.Close(fd);
    assert open - {fd} == old(k.fds);
  }

  /** The part of unlinkRegularAt between opening the file and its deferred close. */
  method UnlinkOpened(k: Kernel, parentFD: int, fd: int, name: string, expected: Stat) returns (err: Option<Errno>)
    requires k.Valid() && parentFD in k.fds && fd in k.fds
    requires Child(k.inodes, k.fds[parentFD], name) == Some(expected.ino) && expected.ino in k.inodes
    requires k.fds[fd] == expected.ino && k.inodes[expected.ino].File?
    modifies k`calls, k`inodes
    ensures k.Valid()
    ensures DeletionDid(old(k.inodes), k.inodes, k.rank, k.Quiet(), k.fds[parentFD], name, err)
  {
    ghost var dir := k.fds[parentFD];
    NothingDone(k.inodes, k.rank, dir, name);
    assert IsEntry(k.inodes, dir, name, expected.ino);
    var found;
    found, err := k.Fstat(fd);
    if err.Some? {
      return;
    }
    if expected.ino != found.ino {
      return Some(UnsafePath);
    }
    RejectsExactlyUnsafe(k.inodes, found.ino);
    err := RejectUnsafeStat(found);
    if err.Some? {
      return;
    }
    ghost var before := k.inodes;
    err := k.Unlink(parentFD, name);
    if err.None? {
      UnlinkedIsRemoved(before, k.inodes, k.rank, dir, name, expected.ino);
    }
  }

  /**
   * deleteTreeAt: whatever fails, nothing changes outside the entry; on success the entry is gone;
   * when no call fails, every safe tree is deleted. The descriptor table is left as it was found.
   */
  method DeleteTreeAt(k: Kernel, parentFD: int, name: string) returns (err: Option<Errno>)
    requires k.Valid() && parentFD in k.fds
    modifies k`calls, k`fds, k`inodes
    ensures k.Valid() && k.fds == old(k.fds)
    ensures DeletionDid(old(k.inodes), k.inodes, k.rank, k.Quiet(), k.fds[parentFD], name, err)
    decreases k.rank(k.fds[parentFD]), 0
  {
    ghost var dir, before := k.fds[parentFD], k.inodes;
    NothingDone(before, k.rank, dir, name);
    var st;
    st, err := k.Fstatat(parentFD, name);
    if err.Some? {
      return;
    }
    assert IsEntry(before, dir, name, st.ino);
    RejectsExactlyUnsafe(k.inodes, st.ino);
    err := RejectUnsafeStat(st);
    if err.Some? {
      return;
    }
    if !st.fileType.Directory? {
      err := UnlinkRegularAt(k, parentFD, name, st);
      return;
    }
    var dirFD;
    dirFD, err := k.Openat(parentFD, name, true);
    if err.Some? {
      return;
    }
    ghost var withDir := k.fds;
    err := EmptyOpened(k, dirFD, st);
    ghost var emptied := k.inodes;
    EmptiedUnderEntry(before, emptied, k.rank, dir, name, st.ino);
    var closed := k.Close(dirFD);
    assert withDir - {dirFD} == old(k.fds);
    if err.Some? {
      return;
    }
    if closed.Some? {
      return closed;
    }
    err := k.Rmdir(parentFD, name);
    if err.None? {
      RmdirCompletes(before, emptied, k.inodes, k.rank, dir, name, st.ino);
    }
  }

  /** The part of deleteTreeAt that empties an open directory. */
  method EmptyOpened(k: Kernel, dirFD: int, st: Stat) returns (err: Option<Errno>)
    requires k.Valid() && dirFD in k.fds && k.inodes[k.fds[dirFD]].Dir? && st.ino == k.fds[dirFD]
    modifies k`calls, k`fds, k`inodes
    ensures k.Valid() && k.fds == old(k.fds)
    ensures Shrinks(old(k.inodes), k.inodes) && OnlyUnder(old(k.inodes), k.inodes, k.rank, k.fds[dirFD])
    ensures err.None? ==> k.inodes[k.fds[dirFD]] == Dir(map[])
    ensures err != Some(ENOENT)
    ensures k.Quiet() && AllSafe(old(k.inodes), k.rank, k.fds[dirFD]) ==> err.None?
    decreases k.rank(k.fds[dirFD]), 1
  {
    ghost var dir, before := k.fds[dirFD], k.inodes;
    var found;
    found, err := k.Fstat(dirFD);
    if err.Some? {
      return;
    }
    if st.ino != found.ino {
      return Some(UnsafePath);
    }
    var names;
    names, err := k.Readdirnames(dirFD);
    if err.Some? {
      return;
    }
    for i := 0 to |names|
      invariant k.Valid() && k.fds == old(k.fds) && err.None?
      invariant Emptying(before, k.inodes, k.rank, dir, names[i..])
    {
      ghost var now := k.inodes;
      if k.Quiet() && AllSafe(before, k.rank, dir) {
        NextIsSafe(before, now, k.rank, dir, names[i..]);
      }
      err := DeleteTreeAt(k, dirFD, names[i]);
      assert names[i..][0] == names[i] && names[i..][1..] == names[i + 1..];
      OneLess(before, now, k.inodes, k.rank, k.Quiet(), dir, names[i..], err);
      if err.Some? {
        return;
      }
    }
    assert k.inodes[dir].entries == map[];
  }

  /** A directory on its way to empty: changes only under it, and `left` are the names still in it. */
  ghost predicate Emptying(before: Disk, now: Disk, rank: Ino -> nat, dir: Ino, left: seq<string>)
    requires Tree(before, rank)
  {
    && Shrinks(before, now) && OnlyUnder(before, now, rank, dir)
    && dir in now && now[dir].Dir?
    && (forall name :: name in now[dir].entries <==> name in left)
    && (forall i, j | 0 <= i < j < |left| :: left[i] != left[j])
  }

  lemma NextIsSafe(before: Disk, now: Disk, rank: Ino -> nat, dir: Ino, left: seq<string>)
    requires Tree(before, rank) && Tree(now, rank) && left != [] && Emptying(before, now, rank, dir, left)
    requires AllSafe(before, rank, dir)
    ensures Child(now, dir, left[0]).Some? && AllSafe(now, rank, Child(now, dir, left[0]).value)
  {
    assert left[0] in now[dir].entries;
    var child := now[dir].entries[left[0]];
    ShrinksKeepsTree(before, now, rank);
    assert IsEntry(now, dir, left[0], child);
    AllSafeShrinks(before, now, rank, child);
  }

  lemma OneLess(before: Disk, now: Disk, after: Disk, rank: Ino -> nat, quiet: bool, dir: Ino, left: seq<string>,
                err: Option<Errno>)
    requires Tree(before, rank) && Tree(now, rank) && left != [] && Emptying(before, now, rank, dir, left)
    requires DeletionDid(now, after, rank, quiet, dir, left[0], err)
    ensures Shrinks(before, after) && OnlyUnder(before, after, rank, dir)
    ensures err.None? ==> Emptying(before, after, rank, dir, left[1..])
    ensures err != Some(ENOENT)
  {
    ShrinksIsTransitive(before, now, after);
    OnlyUnderExtends(before, now, after, rank, dir, left[0]);
    assert left[0] in now[dir].entries;
    if err.None? {
      NamesLeft(now[dir].entries, left);
    }
  }

  lemma NamesLeft(entries: map<string, Ino>, left: seq<string>)
    requires left != [] && forall name :: name in entries <==> name in left
    requires forall i, j | 0 <= i < j < |left| :: left[i] != left[j]
    ensures forall name :: name in entries - {left[0]} <==> name in left[1..]
  {
    assert left == [left[0]] + left[1..];
    assert left[0] !in left[1..];
  }

  /** Changes under a directory are changes under the entry that names it. */
  lemma EmptiedUnderEntry(before: Disk, after: Disk, rank: Ino -> nat, dir: Ino, name: string, ino: Ino)
    requires Tree(before, rank) && IsEntry(before, dir, name, ino)
    requires Shrinks(before, after) && OnlyUnder(before, after, rank, ino)
    ensures OnlyUnderEntry(before, after, rank, dir, name)
    ensures dir in after && after[dir] == before[dir]
  {
    if Below(before, rank, ino, dir) {
      BelowRank(before, rank, ino, dir);
    }
  }

  lemma RmdirCompletes(before: Disk, emptied: Disk, after: Disk, rank: Ino -> nat, dir: Ino, name: string, ino: Ino)
    requires Tree(before, rank) && IsEntry(before, dir, name, ino)
    requires Shrinks(before, emptied) && OnlyUnderEntry(before, emptied, rank, dir, name) && emptied[dir] == before[dir]
    requires after == emptied[dir := Dir(emptied[dir].entries - {name})]
    ensures Removed(before, after, rank, dir, name)
  {
  }

  /* ---------- The file system ---------- */

  /** The walk to the parent directory comes to a directory that lacks segment i. */
  predicate Gap(disk: Disk, root: Ino, segments: seq<string>, i: int) {
    && 0 <= i < |segments| - 1
    && var here := Lookup(disk, root, segments[..i]);
       here.Some? && here.value in disk && disk[here.value].Dir? && segments[i] !in disk[here.value].entries
  }

  /** Some directory on the way to the parent lacks the next segment; a link or file in the way is no gap. */
  ghost predicate HasGap(disk: Disk, root: Ino, segments: seq<string>) {
    exists i :: Gap(disk, root, segments, i)
  }

  /** Before a gap, every step leads to a directory; after it, nothing resolves. */
  lemma AroundGap(disk: Disk, root: Ino, segments: seq<string>, i: int, j: nat)
    requires Gap(disk, root, segments, i) && j < |segments|
    ensures j < i ==> var here := Lookup(disk, root, segments[..j]);
                      && here.Some? && Child(disk, here.value, segments[j]).Some?
                      && var child := Child(disk, here.value, segments[j]).value;
                      child in disk && disk[child].Dir?
    ensures i < j ==> Lookup(disk, root, segments[..j]) == None
  {
    if j < i {
      var path := segments[..i];
      forall m: nat | m <= i ensures Lookup(disk, root, segments[..m]).Some? {
        assert path[..m] == segments[..m];
        if Lookup(disk, root, path[..m]) == None {
          LookupStops(disk, root, path, m);
        }
      }
      assert segments[..j + 1][..j] == segments[..j];
      if j + 1 < i {
        assert segments[..j + 2][..j + 1] == segments[..j + 1];
        assert Lookup(disk, root, segments[..j + 2]).Some?;
      }
      assert Lookup(disk, root, segments[..j]).Some? && Lookup(disk, root, segments[..j + 1]).Some?;
    } else if i < j {
      assert segments[..i + 1][..i] == segments[..i];
      assert segments[..j][..i + 1] == segments[..i + 1];
      LookupStops(disk, root, segments[..j], i + 1);
    }
  }

  /** The directory that holds a path's last segment, when the path leads through directories only. */
  function ParentOf(disk: Disk, root: Ino, segments: seq<string>): Option<Ino>
    requires segments != []
  {
    match Lookup(disk, root, segments[..|segments| - 1])
    case Some(dir) => if dir in disk && disk[dir].Dir? then Some(dir) else None
    case None => None
  }

  /** What removing the entry `leaf` of the directory `dir` promises. */
  ghost predicate EntryRemovalDid(before: Disk, after: Disk, rank: Ino -> nat, quiet: bool, dir: Ino, leaf: string,
                                  err: Option<Errno>)
    requires Tree(before, rank)
  {
    var child := Child(before, dir, leaf);
    && Confined(before, after, rank, dir, leaf)
    && (child.None? ==> after == before && (quiet ==> err.None?))
    && (child.Some? && !AllSafe(before, rank, child.value) ==> after == before && err.Some?)
    && (child.Some? && err.None? ==> Removed(before, after, rank, dir, leaf))
    && (child.Some? && err.Some? ==> after[dir] == before[dir])
    && (child.Some? && AllSafe(before, rank, child.value) && quiet ==> err.None?)
  }

  /** What RemoveAll promises, for any pattern of failing calls. */
  ghost predicate RemoveAllDid(
    before: Disk, after: Disk, rank: Ino -> nat, quiet: bool, root: Ino, segments: seq<string>, err: Option<Errno>)
    requires segments != [] && Tree(before, rank)
  {
    match ParentOf(before, root, segments)
    case None =>
      && after == before
      && (err.None? ==> HasGap(before, root, segments))
      && (quiet && HasGap(before, root, segments) ==> err.None?)
    case Some(dir) => EntryRemovalDid(before, after, rank, quiet, dir, segments[|segments| - 1], err)
  }

  /** The part of RemoveAll between opening the parent and its deferred close. */
  method RemoveEntry(k: Kernel, parentFD: int, leaf: string) returns (err: Option<Errno>)
    requires k.Valid() && parentFD in k.fds && k.inodes[k.fds[parentFD]].Dir?
    modifies k`calls, k`fds, k`inodes
    ensures k.Valid() && k.fds == old(k.fds)
    ensures EntryRemovalDid(old(k.inodes), k.inodes, k.rank, k.Quiet(), k.fds[parentFD], leaf, err)
  {
    NothingDone(k.inodes, k.rank, k.fds[parentFD], leaf);
    err := ValidateTreeAt(k, parentFD, leaf);
    if err.None? {
      err := DeleteTreeAt(k, parentFD, leaf);
    }
    if err == Some(ENOENT) {
      err := None;
    }
  }

  /** A node is as it was, or it is the target's directory and has lost at most the target's entry. */
  predicate SameButFor(before: Disk, after: Disk, dir: Ino, leaf: string, ino: Ino) {
    && ino in before && ino in after
    && (after[ino] == before[ino]
        || (ino == dir && before[ino].Dir? && after[ino] == Dir(before[ino].entries - {leaf})))
  }

  /** Whatever a removal changed, it changed nothing that a path outside the target reaches. */
  lemma OutsideNodeIsSame(
    before: Disk, after: Disk, rank: Ino -> nat, quiet: bool, root: Ino, segments: seq<string>, err: Option<Errno>,
    dir: Ino, path: seq<string>)
    requires Tree(before, rank) && LinksCover(before) && root in before && segments != []
    requires ParentOf(before, root, segments) == Some(dir) && !(segments <= path) && Lookup(before, root, path).Some?
    requires EntryRemovalDid(before, after, rank, quiet, dir, segments[|segments| - 1], err)
    ensures SameButFor(before, after, dir, segments[|segments| - 1], Lookup(before, root, path).value)
  {
    var leaf, ino := segments[|segments| - 1], Lookup(before, root, path).value;
    CoverMeansSingle(before);
    LookupRank(before, rank, root, path);
    NodeOutside(before, after, rank, root, segments, dir, path);
    if ino != dir && after[ino] != before[ino] {
      var child :| IsEntry(before, dir, leaf, child) && Below(before, rank, child, ino);
      AllSafeMeans(before, rank, child);
    }
  }

  /**
   * RemoveAll seen through paths. Whichever calls failed, every path that is not at or under the
   * target resolves as before, to a node that is as before but for the target's entry in its
   * directory; after a success, no path at or under the target resolves; and the call succeeds on a
   * target without unsafe nodes whenever no system call fails.
   */
  lemma RemoveAllThroughPaths(
    before: Disk, after: Disk, rank: Ino -> nat, quiet: bool, root: Ino, segments: seq<string>, err: Option<Errno>,
    path: seq<string>)
    requires Tree(before, rank) && LinksCover(before) && root in before && segments != []
    requires RemoveAllDid(before, after, rank, quiet, root, segments, err)
    ensures !(segments <= path) ==> Lookup(after, root, path) == Lookup(before, root, path)
    ensures !(segments <= path) && Lookup(before, root, path).Some? ==>
              var ino := Lookup(before, root, path).value;
              match ParentOf(before, root, segments)
              case None => after == before
              case Some(dir) => SameButFor(before, after, dir, segments[|segments| - 1], ino)
    ensures segments <= path && err.None? ==> Lookup(after, root, path) == None
    ensures var target := Lookup(before, root, segments);
            && (target.Some? && quiet && AllSafe(before, rank, target.value) ==> err.None?)
            && (target.Some? && !AllSafe(before, rank, target.value) ==> err.Some? && after == before)
            && (target.None? ==> after == before)
  {
    var parents, leaf := segments[..|segments| - 1], segments[|segments| - 1];
    CoverMeansSingle(before);
    match ParentOf(before, root, segments)
    case None =>
      assert Lookup(before, root, segments) == None;
      if segments <= path {
        assert path[..|segments|] == segments;
        LookupStops(before, root, path, |segments|);
      }
    case Some(dir) =>
      assert Lookup(before, root, segments) == Child(before, dir, leaf);
      if !(segments <= path) {
        OutsideIsUntouched(before, after, rank, root, segments, dir, path);
        if Lookup(before, root, path).Some? {
          OutsideNodeIsSame(before, after, rank, quiet, root, segments, err, dir, path);
        }
      } else if Child(before, dir, leaf).None? {
        assert path[..|segments|] == segments;
        LookupStops(before, root, path, |segments|);
      } else if err.None? {
        InsideIsGone(before, after, rank, root, segments, dir, path);
      }
  }

  class NoFollowFileSystem {
    const k: Kernel
    var rootFD: int

    ghost predicate Valid()
      reads this, k
    {
      k.Valid() && (rootFD >= 0 ==> rootFD in k.fds && k.inodes[k.fds[rootFD]].Dir?)
    }

    /** The file system over an already open payload root directory. */
    constructor (k: Kernel, fd: int)
      requires k.Valid() && fd in k.fds && k.inodes[k.fds[fd]].Dir?
      ensures Valid() && this.k == k && rootFD == fd
    {
      this.k := k;
      rootFD := fd;
    }

    /** The payload root directory, while the file system is open. */
    ghost function Root(): Ino
      requires Valid() && rootFD >= 0
      reads this, k
    {
      k.fds[rootFD]
    }

    /** Closes the root descriptor once; closing again does nothing. */
    method Close() returns (err: Option<Errno>)
      requires Valid()
      modifies this, k`calls, k`fds
      ensures Valid() && rootFD < 0
      ensures (k.fds, rootFD) == CloseRoot(old(k.fds), old(rootFD))
    {
      if rootFD < 0 {
        return None;
      }
      err := k.Close(rootFD);
      rootFD := -1;
    }

    method DupRoot() returns (fd: int, err: Option<Errno>)
      requires Valid()
      modifies k`calls, k`fds
      ensures Valid()
      ensures err.None? ==> rootFD >= 0 && fd !in old(k.fds) && k.fds == old(k.fds)[fd := old(k.fds)[rootFD]]
      ensures err.Some? ==> k.fds == old(k.fds)
      ensures k.Quiet() && rootFD >= 0 ==> err.None?
      ensures err != Some(ENOENT)
    {
      if rootFD < 0 {
        return -1, Some(Closed);
      }
      fd, err := k.Dup(rootFD);
    }

    /**
     * openParent: on success exactly one descriptor is new, and it denotes the directory that the
     * path reaches through real directory entries; on failure none is. When no call fails it
     * succeeds exactly for paths that lead through directories.
     */
    method OpenParent(segments: seq<string>) returns (fd: int, leaf: string, err: Option<Errno>)
      requires Valid()
      modifies k`calls, k`fds
      ensures Valid()
      ensures err.Some? ==> k.fds == old(k.fds)
      ensures err.None? ==>
                && segments != [] && leaf == segments[|segments| - 1] && rootFD >= 0 && fd !in old(k.fds)
                && ParentOf(k.inodes, Root(), segments).Some?
                && k.fds == old(k.fds)[fd := ParentOf(k.inodes, Root(), segments).value]
      ensures err == Some(ENOENT) ==> rootFD >= 0 && HasGap(k.inodes, Root(), segments)
      ensures k.Quiet() && rootFD >= 0 && segments != [] && ParentOf(k.inodes, Root(), segments).Some? ==> err.None?
      ensures k.Quiet() && rootFD >= 0 && HasGap(k.inodes, Root(), segments) ==> err == Some(ENOENT)
    {
      if segments == [] {
        return -1, "", Some(UnsafePath);
      }
      fd, err := DupRoot();
      if err.Some? {
        return -1, "", err;
      }
      ghost var root := Root();
      for i := 0 to |segments| - 1
        invariant Valid() && fd !in old(k.fds) && err.None?
        invariant Lookup(k.inodes, root, segments[..i]).Some?
        invariant k.fds == old(k.fds)[fd := Lookup(k.inodes, root, segments[..i]).value]
        invariant k.inodes[k.fds[fd]].Dir?
      {
        assert segments[..i + 1][..i] == segments[..i];
        var here := k.fds[fd];
        var next;
        next, err := k.Openat(fd, segments[i], true);
        ghost var both := k.fds;
        var _ := k.Close(fd);
        assert err.None? ==> both - {fd} == old(k.fds)[next := both[next]];
        assert err.Some? ==> both - {fd} == old(k.fds);
        if err.Some? {
          assert err == Some(ENOENT) ==> Gap(k.inodes, root, segments, i);
          WalkEnds(k.inodes, root, segments, i);
          forall g | Gap(k.inodes, root, segments, g) ensures k.Quiet() ==> err == Some(ENOENT) {
            AroundGap(k.inodes, root, segments, g, i);
          }
          return -1, "", err;
        }
        err := EnsureDir(next);
        if err.Some? {
          var _ := k.Close(next);
          return -1, "", err;
        }
        fd := next;
      }
      leaf := segments[|segments| - 1];
      forall g | Gap(k.inodes, root, segments, g) ensures false {
        AroundGap(k.inodes, root, segments, g, |segments| - 1);
      }
    }

    /** ensureDirFD */
    method EnsureDir(fd: int) returns (err: Option<Errno>)
      requires Valid() && fd in k.fds
      modifies k`calls
      ensures Valid()
      ensures err.None? ==> k.inodes[k.fds[fd]].Dir?
      ensures k.Quiet() && k.inodes[k.fds[fd]].Dir? ==> err.None?
      ensures err != Some(ENOENT)
    {
      var st;
      st, err := k.Fstat(fd);
      if err.None? && !st.fileType.Directory? {
        err := Some(UnsafePath);
      }
    }

    /**
     * RemoveAll: a safe subtree is removed, and nothing else; a subtree with a symlink, hardlinked
     * file or special file is refused with nothing changed; an absent target is left alone. Whichever
     * calls fail, nothing outside the target changes and no descriptor is left open.
     */
    method RemoveAll(name: string) returns (err: Option<Errno>)
      requires Valid()
      modifies k`calls, k`fds, k`inodes
      ensures Valid() && k.fds == old(k.fds)
      ensures var segments := DavSegments(name);
              if segments == None || segments == Some([]) then err.Some? && k.inodes == old(k.inodes)
              else if rootFD < 0 then err.Some? && k.inodes == old(k.inodes)
              else RemoveAllDid(old(k.inodes), k.inodes, k.rank, k.Quiet(), Root(), segments.value, err)
    {
      var parsed := DavSegments(name);
      if parsed.None? || parsed.value == [] {
        return Some(UnsafePath);
      }
      var segments := parsed.value;
      var parentFD, leaf;
      parentFD, leaf, err := OpenParent(segments);
      ghost var withParent := k.fds;
      if err.Some? {
        if err == Some(ENOENT) {
          GapHasNoParent(k.inodes, Root(), segments);
          err := None;
        }
        return;
      }
      err := RemoveEntry(k, parentFD, leaf);
      var _ := k.Close(parentFD);
      assert withParent - {parentFD} == old(k.fds);
    }
  }

  /* ---------- The other operations ---------- */

  /** validateRenameEndpoint */
  method ValidateRenameEndpoint(k: Kernel, parentFD: int, leaf: string, mustExist: bool) returns (err: Option<Errno>)
    requires k.Valid() && parentFD in k.fds
    modifies k`calls, k`fds
    ensures k.Valid() && k.fds == old(k.fds)
    ensures var child := Child(k.inodes, k.fds[parentFD], leaf);
            && (err.None? ==> if child.Some? then AllSafe(k.inodes, k.rank, child.value) else !mustExist)
            && (k.Quiet() && child.Some? && AllSafe(k.inodes, k.rank, child.value) ==> err.None?)
            && (k.Quiet() && child.None? && !mustExist && k.inodes[k.fds[parentFD]].Dir? ==> err.None?)
  {
    var st;
    st, err := k.Fstatat(parentFD, leaf);
    if err.Some? {
      if !mustExist && err == Some(ENOENT) {
        err := None;
      }
      return;
    }
    RejectsExactlyUnsafe(k.inodes, st.ino);
    err := RejectUnsafeStat(st);
    if err.None? && st.fileType.Directory? {
      err := ValidateTreeAt(k, parentFD, leaf);
    }
  }

  /** Mkdir: adds one empty directory or changes nothing, and leaves the descriptor table as it was. */
  method Mkdir(fs: NoFollowFileSystem, name: string) returns (err: Option<Errno>)
    requires fs.Valid()
    modifies fs.k
    ensures fs.Valid() && fs.k.fds == old(fs.k.fds)
    ensures err.Some? ==> fs.k.inodes == old(fs.k.inodes)
    ensures err.None? ==>
              && DavSegments(name).Some? && DavSegments(name).value != [] && fs.rootFD >= 0
              && var segments := DavSegments(name).value;
                 && ParentOf(old(fs.k.inodes), old(fs.Root()), segments).Some?
                 && Created(old(fs.k.inodes), fs.k.inodes, ParentOf(old(fs.k.inodes), old(fs.Root()), segments).value,
                            segments[|segments| - 1], Dir(map[]))
    ensures fs.k.Quiet() && fs.rootFD >= 0 && DavSegments(name).Some? && DavSegments(name).value != [] ==>
              var segments := DavSegments(name).value;
              var parent := ParentOf(old(fs.k.inodes), old(fs.Root()), segments);
              parent.Some? && Child(old(fs.k.inodes), parent.value, segments[|segments| - 1]).None? ==> err.None?
  {
    var k := fs.k;
    var parsed := DavSegments(name);
    if parsed.None? || parsed.value == [] {
      return Some(UnsafePath);
    }
    var fd, leaf;
    fd, leaf, err := fs.OpenParent(parsed.value);
    if err.Some? {
      return;
    }
    ghost var withParent := k.fds;
    err := k.Create(fd, leaf, Dir(map[]));
    var _ := k.Close(fd);
    assert withParent - {fd} == old(k.fds);
  }

  datatype OpenFlags = OpenFlags(write: bool, create: bool, truncate: bool)
  {
    predicate WriteRequested() {
      write || create || truncate
    }
  }

  /** A new regular file was created at the path `name`. */
  ghost predicate CreatedAt(before: Disk, after: Disk, rootFD: int, fds: map<int, Ino>, name: string) {
    && rootFD in fds && DavSegments(name).Some? && DavSegments(name).value != []
    && var segments := DavSegments(name).value;
    && ParentOf(before, fds[rootFD], segments).Some?
    && Created(before, after, ParentOf(before, fds[rootFD], segments).value, segments[|segments| - 1], File(1))
  }

  /** `ino` is what the last segment of `name` denotes in the directory that the path leads to. */
  predicate OpenedAt(before: Disk, after: Disk, rootFD: int, fds: map<int, Ino>, name: string, ino: Ino) {
    && rootFD in fds && DavSegments(name).Some?
    && var segments := DavSegments(name).value;
    && (segments == [] ==> ino == fds[rootFD])
    && (segments != [] ==> ParentOf(before, fds[rootFD], segments).Some?
                           && Child(after, ParentOf(before, fds[rootFD], segments).value, segments[|segments| - 1])
                              == Some(ino))
  }

  predicate LeafOpenable(disk: Disk, dir: Ino, leaf: string, flags: OpenFlags) {
    && Openable(disk, dir, leaf, flags.create, flags.write)
    && (flags.truncate && Child(disk, dir, leaf).Some? ==> disk[Child(disk, dir, leaf).value].File?)
  }

  /** A path that OpenFile opens when no system call fails. */
  predicate MayOpen(disk: Disk, root: Ino, name: string, flags: OpenFlags) {
    && DavSegments(name).Some?
    && var segments := DavSegments(name).value;
    if segments == [] then !flags.WriteRequested()
    else
      var parent := ParentOf(disk, root, segments);
      parent.Some? && LeafOpenable(disk, parent.value, segments[|segments| - 1], flags)
  }

  /**
   * OpenFile: one new descriptor on success, none on failure; what it denotes is a directory or a
   * singly linked regular file. Only a create of an absent name changes the tree.
   */
  method OpenFile(fs: NoFollowFileSystem, name: string, flags: OpenFlags) returns (fd: int, err: Option<Errno>)
    requires fs.Valid()
    modifies fs.k
    ensures fs.Valid()
    ensures err.Some? ==> fs.k.fds == old(fs.k.fds)
    ensures err.None? ==> fd !in old(fs.k.fds) && fd in fs.k.fds && fs.k.fds == old(fs.k.fds)[fd := fs.k.fds[fd]]
                          && SafeNode(fs.k.inodes[fs.k.fds[fd]])
    ensures fs.k.inodes == old(fs.k.inodes)
            || (flags.create && CreatedAt(old(fs.k.inodes), fs.k.inodes, old(fs.rootFD), old(fs.k.fds), name))
    ensures err.None? ==> OpenedAt(old(fs.k.inodes), fs.k.inodes, old(fs.rootFD), old(fs.k.fds), name, fs.k.fds[fd])
    ensures fs.k.Quiet() && fs.rootFD >= 0 && MayOpen(old(fs.k.inodes), old(fs.Root()), name, flags) ==> err.None?
    ensures err.None? ==> fs.rootFD >= 0 && MayOpen(old(fs.k.inodes), old(fs.Root()), name, flags)
  {
    var parsed := DavSegments(name);
    if parsed.None? {
      return -1, Some(UnsafePath);
    }
    if parsed.value == [] {
      if flags.WriteRequested() {
        return -1, Some(EISDIR);
      }
      fd, err := fs.DupRoot();
      return;
    }
    fd, err := OpenBelow(fs, parsed.value, flags);
  }

  /** openFileFD below the root. */
  method OpenBelow(fs: NoFollowFileSystem, segments: seq<string>, flags: OpenFlags)
    returns (fd: int, err: Option<Errno>)
    requires fs.Valid() && segments != []
    modifies fs.k
    ensures fs.Valid()
    ensures err.Some? ==> fs.k.fds == old(fs.k.fds)
    ensures err.None? ==> fd !in old(fs.k.fds) && fd in fs.k.fds && fs.k.fds == old(fs.k.fds)[fd := fs.k.fds[fd]]
                          && SafeNode(fs.k.inodes[fs.k.fds[fd]]) && fs.rootFD >= 0
    ensures fs.k.inodes != old(fs.k.inodes) ==> fs.rootFD >= 0 && flags.create
    ensures fs.rootFD >= 0 ==>
              var before, leaf := old(fs.k.inodes), segments[|segments| - 1];
              match ParentOf(before, old(fs.Root()), segments)
              case None => err.Some? && fs.k.inodes == before
              case Some(dir) =>
                && (fs.k.inodes == before || Created(before, fs.k.inodes, dir, leaf, File(1)))
                && (err.None? ==> LeafOpenable(before, dir, leaf, flags)
                                  && Child(fs.k.inodes, dir, leaf) == Some(fs.k.fds[fd]))
                && (fs.k.Quiet() && LeafOpenable(before, dir, leaf, flags) ==> err.None?)
  {
    var k := fs.k;
    var parentFD, leaf;
    parentFD, leaf, err := fs.OpenParent(segments);
    if err.Some? {
      return -1, err;
    }
    fd, err := OpenLeaf(k, parentFD, leaf, flags);
    ghost var last := k.fds;
    var _ := k.Close(parentFD);
    assert err.Some? ==> last - {parentFD} == old(k.fds);
    assert err.None? ==> last - {parentFD} == old(k.fds)[fd := last[fd]];
  }

  /** The part of openFileFD between opening the parent and its deferred close. */
  method OpenLeaf(k: Kernel, parentFD: int, leaf: string, flags: OpenFlags) returns (fd: int, err: Option<Errno>)
    requires k.Valid() && parentFD in k.fds
    modifies k
    ensures k.Valid()
    ensures err.Some? ==> k.fds == old(k.fds)
    ensures err.None? ==> fd !in old(k.fds) && fd in k.fds && k.fds == old(k.fds)[fd := k.fds[fd]]
                          && Child(k.inodes, old(k.fds)[parentFD], leaf) == Some(k.fds[fd])
                             && SafeNode(k.inodes[k.fds[fd]])
    ensures k.inodes == old(k.inodes)
            || (flags.create && Created(old(k.inodes), k.inodes, old(k.fds)[parentFD], leaf, File(1)))
    ensures k.Quiet() && LeafOpenable(old(k.inodes), old(k.fds)[parentFD], leaf, flags) ==> err.None?
    ensures err.None? ==> LeafOpenable(old(k.inodes), old(k.fds)[parentFD], leaf, flags)
  {
    fd, err := k.OpenatCreating(parentFD, leaf, flags.create, flags.write);
    if err.None? {
      ghost var withFile := k.fds;
      err := ValidateOpenedFile(k, fd, flags.truncate);
      if err.Some? {
        var _ := k.Close(fd);
        assert withFile - {fd} == old(k.fds);
      }
    }
  }

  /** validateOpenedFileFD, then truncateOpenedRegularFD when asked. */
  method ValidateOpenedFile(k: Kernel, fd: int, truncate: bool) returns (err: Option<Errno>)
    requires k.Valid() && fd in k.fds
    modifies k`calls
    ensures k.Valid()
    ensures err.None? ==> SafeNode(k.inodes[k.fds[fd]]) && (truncate ==> k.inodes[k.fds[fd]].File?)
    ensures k.Quiet() && SafeNode(k.inodes[k.fds[fd]]) && (truncate ==> k.inodes[k.fds[fd]].File?) ==> err.None?
  {
    var st;
    st, err := k.Fstat(fd);
    if err.Some? {
      return;
    }
    RejectsExactlyUnsafe(k.inodes, st.ino);
    err := RejectUnsafeStat(st);
    if err.Some? || !truncate {
      return;
    }
    st, err := k.Fstat(fd);
    if err.Some? {
      return;
    }
    if !st.fileType.Regular? || st.nlink > 1 {
      return Some(UnsafePath);
    }
    var failed := k.Faults();
    err := if failed then Some(EIO) else None;
  }

  /** The path reaches a directory or a singly linked regular file. */
  predicate LeadsToSafe(disk: Disk, root: Ino, segments: seq<string>) {
    var found := Lookup(disk, root, segments);
    found.Some? && found.value in disk && SafeNode(disk[found.value])
  }

  /** Stat: reports a safe inode that the path reaches without following a link, and leaks no descriptor. */
  method StatPath(fs: NoFollowFileSystem, name: string) returns (st: Stat, err: Option<Errno>)
    requires fs.Valid()
    modifies fs.k`calls, fs.k`fds
    ensures fs.Valid() && fs.k.fds == old(fs.k.fds)
    ensures err.None? ==>
              && DavSegments(name).Some? && fs.rootFD >= 0 && st.ino in fs.k.inodes
              && SafeNode(fs.k.inodes[st.ino]) && st == StatOf(fs.k.inodes, st.ino)
              && Lookup(fs.k.inodes, fs.Root(), DavSegments(name).value) == Some(st.ino)
    ensures fs.k.Quiet() && fs.rootFD >= 0 && DavSegments(name).Some?
            && LeadsToSafe(fs.k.inodes, fs.Root(), DavSegments(name).value)
        ==> err.None?
  {
    var k := fs.k;
    st := Stat(0, OtherType, 0);
    var parsed := DavSegments(name);
    if parsed.None? {
      return st, Some(UnsafePath);
    }
    var fd;
    if parsed.value == [] {
      fd, err := fs.DupRoot();
    } else {
      fd, err := OpenForStat(fs, parsed.value);
    }
    if err.Some? {
      return;
    }
    ghost var withFile := k.fds;
    st, err := k.Fstat(fd);
    if err.None? {
      RejectsExactlyUnsafe(k.inodes, st.ino);
      err := RejectUnsafeStat(st);
    }
    var _ := k.Close(fd);
    assert withFile - {fd} == old(k.fds);
  }

  /** The part of openStatFD between opening the parent and its deferred close. */
  method OpenLeafForStat(k: Kernel, parentFD: int, leaf: string) returns (fd: int, err: Option<Errno>)
    requires k.Valid() && parentFD in k.fds
    modifies k`calls, k`fds
    ensures k.Valid()
    ensures err.Some? ==> k.fds == old(k.fds)
    ensures var child := Child(k.inodes, old(k.fds)[parentFD], leaf);
            && (err.None? ==> fd !in old(k.fds) && child.Some? && k.fds == old(k.fds)[fd := child.value])
            && (k.Quiet() && child.Some? && child.value in k.inodes && SafeNode(k.inodes[child.value]) ==> err.None?)
  {
    fd, err := k.Openat(parentFD, leaf, false);
    if err.None? {
      ghost var withFile := k.fds;
      var st;
      st, err := k.Fstat(fd);
      if err.None? {
        err := RejectUnsafeStat(st);
      }
      if err.Some? {
        var _ := k.Close(fd);
        assert withFile - {fd} == old(k.fds);
      }
    }
  }

  /** openStatFD below the root. */
  method OpenForStat(fs: NoFollowFileSystem, segments: seq<string>) returns (fd: int, err: Option<Errno>)
    requires fs.Valid() && segments != []
    modifies fs.k`calls, fs.k`fds
    ensures fs.Valid()
    ensures err.Some? ==> fs.k.fds == old(fs.k.fds)
    ensures err.None? ==> fd !in old(fs.k.fds) && fd in fs.k.fds && fs.k.fds == old(fs.k.fds)[fd := fs.k.fds[fd]]
                          && fs.rootFD >= 0 && Lookup(fs.k.inodes, fs.Root(), segments) == Some(fs.k.fds[fd])
    ensures fs.k.Quiet() && fs.rootFD >= 0 && LeadsToSafe(fs.k.inodes, fs.Root(), segments) ==> err.None?
  {
    var k := fs.k;
    var parentFD, leaf;
    parentFD, leaf, err := fs.OpenParent(segments);
    if err.Some? {
      return -1, err;
    }
    fd, err := OpenLeafForStat(k, parentFD, leaf);
    ghost var last := k.fds;
    var _ := k.Close(parentFD);
    assert err.Some? ==> last - {parentFD} == old(k.fds);
    assert err.None? ==> last - {parentFD} == old(k.fds)[fd := last[fd]];
  }

  /** The last segment of path `a` was renamed to the last segment of path `b`, both safe. */
  ghost predicate RenamedAt(before: Disk, after: Disk, rank: Ino -> nat, root: Ino, a: seq<string>, b: seq<string>)
    requires a != [] && b != [] && Tree(before, rank)
  {
    && ParentOf(before, root, a).Some? && ParentOf(before, root, b).Some?
    && var from, to := ParentOf(before, root, a).value, ParentOf(before, root, b).value;
    && Renamed(before, after, from, a[|a| - 1], to, b[|b| - 1])
    && SafeEndpoints(before, rank, from, a[|a| - 1], to, b[|b| - 1])
  }

  /** What is moved is a safe tree, and so is what it replaces, if anything. */
  ghost predicate SafeEndpoints(disk: Disk, rank: Ino -> nat, from: Ino, oldLeaf: string, to: Ino, newLeaf: string)
    requires Tree(disk, rank)
  {
    && Child(disk, from, oldLeaf).Some? && AllSafe(disk, rank, Child(disk, from, oldLeaf).value)
    && (Child(disk, to, newLeaf).Some? ==> AllSafe(disk, rank, Child(disk, to, newLeaf).value))
  }

  /** Both endpoints are safe, and the rename itself is possible. */
  ghost predicate SafeToRename(disk: Disk, rank: Ino -> nat, from: Ino, oldLeaf: string, to: Ino, newLeaf: string)
    requires Tree(disk, rank)
  {
    Renamable(disk, rank, from, oldLeaf, to, newLeaf) && SafeEndpoints(disk, rank, from, oldLeaf, to, newLeaf)
  }

  /** Two paths between which Rename moves when no system call fails. */
  ghost predicate MayRename(disk: Disk, rank: Ino -> nat, root: Ino, oldName: string, newName: string)
    requires Tree(disk, rank)
  {
    && DavSegments(oldName).Some? && DavSegments(newName).Some?
    && var a, b := DavSegments(oldName).value, DavSegments(newName).value;
    && a != [] && b != []
    && ParentOf(disk, root, a).Some? && ParentOf(disk, root, b).Some?
    && SafeToRename(disk, rank, ParentOf(disk, root, a).value, a[|a| - 1], ParentOf(disk, root, b).value, b[|b| - 1])
  }

  /** The part of Rename between opening both parents and their deferred closes. */
  method RenameChecked(k: Kernel, oldFD: int, oldLeaf: string, newFD: int, newLeaf: string) returns (err: Option<Errno>)
    requires k.Valid() && oldFD in k.fds && newFD in k.fds
    modifies k
    ensures k.Valid() && k.fds == old(k.fds)
    ensures err.Some? ==> k.inodes == old(k.inodes)
    ensures err.None? ==>
              && Renamed(old(k.inodes), k.inodes, k.fds[oldFD], oldLeaf, k.fds[newFD], newLeaf)
              && SafeEndpoints(old(k.inodes), old(k.rank), k.fds[oldFD], oldLeaf, k.fds[newFD], newLeaf)
    ensures k.Quiet() && SafeToRename(old(k.inodes), old(k.rank), k.fds[oldFD], oldLeaf, k.fds[newFD], newLeaf) ==>
            err.None?
  {
    err := ValidateRenameEndpoint(k, oldFD, oldLeaf, true);
    if err.Some? {
      return;
    }
    err := ValidateRenameEndpoint(k, newFD, newLeaf, false);
    if err.Some? {
      return;
    }
    err := k.Renameat(oldFD, oldLeaf, newFD, newLeaf);
  }

  /** The part of Rename between opening the old parent and its deferred close. */
  method RenameInto(fs: NoFollowFileSystem, oldFD: int, oldLeaf: string, b: seq<string>) returns (err: Option<Errno>)
    requires fs.Valid() && oldFD in fs.k.fds && b != []
    modifies fs.k
    ensures fs.k.Valid() && fs.k.fds == old(fs.k.fds)
    ensures err.Some? ==> fs.k.inodes == old(fs.k.inodes)
    ensures err.None? ==>
              && fs.rootFD >= 0
              && var from, to := fs.k.fds[oldFD], ParentOf(old(fs.k.inodes), old(fs.Root()), b);
              && to.Some?
              && Renamed(old(fs.k.inodes), fs.k.inodes, from, oldLeaf, to.value, b[|b| - 1])
              && SafeEndpoints(old(fs.k.inodes), old(fs.k.rank), from, oldLeaf, to.value, b[|b| - 1])
    ensures fs.k.Quiet() && fs.rootFD >= 0 ==>
              var from, to := fs.k.fds[oldFD], ParentOf(old(fs.k.inodes), old(fs.Root()), b);
              to.Some? && SafeToRename(old(fs.k.inodes), old(fs.k.rank), from, oldLeaf, to.value, b[|b| - 1]) ==>
                  err.None?
  {
    var k := fs.k;
    var newFD, newLeaf;
    newFD, newLeaf, err := fs.OpenParent(b);
    if err.None? {
      ghost var withBoth := k.fds;
      err := RenameChecked(k, oldFD, oldLeaf, newFD, newLeaf);
      var _ := k.Close(newFD);
      assert withBoth - {newFD} == old(k.fds);
    }
  }

  /** Rename: moves one name and no other, only between safe endpoints, and leaks no descriptor. */
  method Rename(fs: NoFollowFileSystem, oldName: string, newName: string) returns (err: Option<Errno>)
    requires fs.Valid()
    modifies fs.k
    ensures fs.Valid() && fs.k.fds == old(fs.k.fds)
    ensures err.Some? ==> fs.k.inodes == old(fs.k.inodes)
    ensures err.None? ==>
              && fs.rootFD >= 0 && DavSegments(oldName).Some? && DavSegments(newName).Some?
              && var a, b := DavSegments(oldName).value, DavSegments(newName).value;
              && a != [] && b != []
              && RenamedAt(old(fs.k.inodes), fs.k.inodes, old(fs.k.rank), old(fs.Root()), a, b)
    ensures fs.k.Quiet() && fs.rootFD >= 0
            && MayRename(old(fs.k.inodes), old(fs.k.rank), old(fs.Root()), oldName, newName)
        ==> err.None?
  {
    var k := fs.k;
    var a, b := DavSegments(oldName), DavSegments(newName);
    if a.None? || b.None? || a.value == [] || b.value == [] {
      return Some(UnsafePath);
    }
    var oldFD, oldLeaf;
    oldFD, oldLeaf, err := fs.OpenParent(a.value);
    if err.Some? {
      return;
    }
    ghost var withOld := k.fds;
    err := RenameInto(fs, oldFD, oldLeaf, b.value);
    var _ := k.Close(oldFD);
    assert withOld - {oldFD} == old(k.fds);
  }

  /** A walk that cannot be continued has no parent directory to end in. */
  lemma WalkEnds(disk: Disk, root: Ino, segments: seq<string>, i: nat)
    requires i + 1 < |segments| && Lookup(disk, root, segments[..i]).Some?
    ensures var here := Lookup(disk, root, segments[..i]).value; var child := Child(disk, here, segments[i]);
            && (child.None? ==> ParentOf(disk, root, segments).None?)
            && (child.Some? && !(child.value in disk && disk[child.value].Dir?) ==>
                ParentOf(disk, root, segments).None?)
  {
    var here := Lookup(disk, root, segments[..i]).value;
    var child := Child(disk, here, segments[i]);
    var parents := segments[..|segments| - 1];
    assert segments[..i + 1][..i] == segments[..i];
    assert parents[..i + 1] == segments[..i + 1];
    if child.None? {
      assert Lookup(disk, root, segments[..i + 1]) == None;
      LookupStops(disk, root, parents, i + 1);
    } else if !(child.value in disk && disk[child.value].Dir?) && i + 2 < |segments| {
      assert segments[..i + 2][..i + 1] == segments[..i + 1];
      assert parents[..i + 2] == segments[..i + 2];
      LookupStops(disk, root, parents, i + 2);
    }
  }

  lemma GapHasNoParent(disk: Disk, root: Ino, segments: seq<string>)
    requires HasGap(disk, root, segments)
    ensures segments != [] && ParentOf(disk, root, segments).None?
  {
    var i :| Gap(disk, root, segments, i);
    AroundGap(disk, root, segments, i, |segments| - 1);
  }
}
