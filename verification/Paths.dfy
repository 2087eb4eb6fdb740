/** Slash-separated paths: Go's strings.Split, strings.Join, path.Clean and filepath.Rel. */
module Paths {
  import opened Common

  /** strings.Split(s, "/") */
  function Split(s: string): (parts: seq<string>)
    ensures parts != []
  {
    if s == "" then [""]
    else if s[0] == '/' then [""] + Split(s[1..])
    else
      var rest := Split(s[1..]);
      [[s[0]] + rest[0]] + rest[1..]
  }

  /** strings.Join(parts, "/") */
  function Join(parts: seq<string>): string {
    if parts == [] then ""
    else if |parts| == 1 then parts[0]
    else parts[0] + "/" + Join(parts[1..])
  }

  predicate NoSlash(s: string) {
    '/' !in s
  }

  /** A name that means itself in a path. */
  predicate Plain(s: string) {
    s != "" && s != "." && s != ".." && NoSlash(s)
  }

  predicate AllPlain(parts: seq<string>) {
    forall part <- parts :: Plain(part)
  }

  lemma {:induction false} SplitOne(s: string)
    requires NoSlash(s)
    ensures Split(s) == [s]
  {
    if s != "" {
      SplitOne(s[1..]);
      assert s == [s[0]] + s[1..];
    }
  }

  lemma {:induction false} SplitFirst(s: string, rest: string)
    requires NoSlash(s)
    ensures Split(s + "/" + rest) == [s] + Split(rest)
  {
    var whole := s + "/" + rest;
    if s == "" {
      assert whole[1..] == rest;
    } else {
      SplitFirst(s[1..], rest);
      assert whole[1..] == s[1..] + "/" + rest;
      assert s == [s[0]] + s[1..];
    }
  }

  /** Splitting undoes joining. */
  lemma {:induction false} SplitJoin(parts: seq<string>)
    requires parts != [] && forall part <- parts :: NoSlash(part)
    ensures Split(Join(parts)) == parts
  {
    assert parts[0] in parts;
    if |parts| == 1 {
      SplitOne(parts[0]);
    } else {
      var rest := parts[1..];
      assert parts == [parts[0]] + rest;
      SplitJoin(rest);
      SplitFirst(parts[0], Join(rest));
    }
  }

  lemma Regroup(a: string, b: string, c: string, d: string)
    ensures a + b + c + d == a + (b + c + d)
  {
  }

  lemma JoinGrows(c: char, rest: seq<string>)
    requires rest != []
    ensures Join([[c] + rest[0]] + rest[1..]) == [c] + Join(rest)
  {
    var x, tail := rest[0], rest[1..];
    assert ([[c] + x] + tail)[1..] == tail;
    if tail != [] {
      Regroup([c], x, "/", Join(tail));
    }
  }

  /** Joining undoes splitting, and split parts hold no slash. */
  lemma {:induction false} JoinSplit(s: string)
    ensures Join(Split(s)) == s
    ensures forall part <- Split(s) :: NoSlash(part)
  {
    if s != "" {
      var rest := Split(s[1..]);
      JoinSplit(s[1..]);
      assert s == [s[0]] + s[1..];
      if s[0] == '/' {
        assert ([""] + rest)[1..] == rest;
        assert "" + "/" + Join(rest) == s;
      } else {
        JoinGrows(s[0], rest);
        assert NoSlash(rest[0]);
      }
    }
  }

  /** Names that a path of joined elements can be split back into. */
  predicate AllNames(parts: seq<string>) {
    forall part <- parts :: part != "" && NoSlash(part)
  }

  lemma JoinIsEmptyIff(a: seq<string>)
    requires AllNames(a)
    ensures Join(a) == "" <==> a == []
    ensures a != [] ==> Join(a)[0] != '/' && Join(a)[|Join(a)| - 1] != '/'
  {
    if a != [] {
      assert a[0] in a && a[|a| - 1] in a;
      if |a| > 1 {
        JoinIsEmptyIff(a[1..]);
      }
    }
  }

  /* ---------- path.Clean ---------- */

  /** The elements that cleaning keeps, from left to right. */
  function CleanElements(rooted: bool, kept: seq<string>, parts: seq<string>): seq<string>
    decreases |parts|
  {
    if parts == [] then kept
    else if parts[0] == "" || parts[0] == "." then CleanElements(rooted, kept, parts[1..])
    else if parts[0] == ".." then
      if kept != [] && kept[|kept| - 1] != ".." then CleanElements(rooted, kept[..|kept| - 1], parts[1..])
      else if rooted then CleanElements(rooted, kept, parts[1..])
      else CleanElements(rooted, kept + [".."], parts[1..])
    else CleanElements(rooted, kept + [parts[0]], parts[1..])
  }

  function Clean(path: string): string {
    if path == "" then "."
    else
      var rooted := path[0] == '/';
      var kept := CleanElements(rooted, [], Split(path));
      if rooted then "/" + Join(kept) else if kept == [] then "." else Join(kept)
  }

  lemma {:induction false} CleanKeepsPlain(rooted: bool, kept: seq<string>, parts: seq<string>)
    requires AllPlain(parts)
    ensures CleanElements(rooted, kept, parts) == kept + parts
    decreases |parts|
  {
    if parts == [] {
      assert kept + parts == kept;
    } else {
      assert Plain(parts[0]);
      CleanKeepsPlain(rooted, kept + [parts[0]], parts[1..]);
      assert kept + [parts[0]] + parts[1..] == kept + parts;
    }
  }

  /** Cleaning a rooted path leaves plain elements only. */
  lemma {:induction false} RootedElementsArePlain(kept: seq<string>, parts: seq<string>)
    requires AllPlain(kept) && forall part <- parts :: NoSlash(part)
    ensures AllPlain(CleanElements(true, kept, parts))
    decreases |parts|
  {
    if parts != [] {
      var part := parts[0];
      if part == "" || part == "." {
        RootedElementsArePlain(kept, parts[1..]);
      } else if part == ".." {
        if kept != [] && kept[|kept| - 1] != ".." {
          RootedElementsArePlain(kept[..|kept| - 1], parts[1..]);
        } else {
          RootedElementsArePlain(kept, parts[1..]);
        }
      } else {
        RootedElementsArePlain(kept + [part], parts[1..]);
      }
    }
  }

  /** filepath.IsAbs(path) && filepath.Clean(path) == path */
  predicate CleanAbs(path: string) {
    path != "" && path[0] == '/' && Clean(path) == path
  }

  /** The elements of a clean absolute path. */
  function Elements(path: string): seq<string> {
    CleanElements(true, [], Split(path))
  }

  /** Clean absolute paths are exactly a slash before joined plain elements. */
  lemma CleanAbsIff(path: string, parts: seq<string>)
    requires AllPlain(parts)
    ensures path == "/" + Join(parts) ==> CleanAbs(path) && Elements(path) == parts
    ensures CleanAbs(path) ==> AllPlain(Elements(path)) && path == "/" + Join(Elements(path))
  {
    JoinSplit(path);
    RootedElementsArePlain([], Split(path));
    if path == "/" + Join(parts) {
      assert path[1..] == Join(parts);
      if parts == [] {
        assert Split(path) == ["", ""];
        assert CleanElements(true, [], ["", ""]) == CleanElements(true, [], [""]) == [];
      } else {
        SplitJoin(parts);
        assert Split(path) == [""] + parts;
        assert Split(path)[1..] == parts;
        CleanKeepsPlain(true, [], parts);
        assert [] + parts == parts;
      }
    }
  }

  /** Clean absolute paths are told apart by their elements. */
  lemma SameElementsSamePath(a: string, b: string)
    requires CleanAbs(a) && CleanAbs(b)
    ensures a == b <==> Elements(a) == Elements(b)
  {
    CleanAbsIff(a, []);
    CleanAbsIff(b, []);
  }

  /* ---------- filepath.Rel on clean absolute paths ---------- */

  function Shared(a: seq<string>, b: seq<string>): (n: nat)
    ensures n <= |a| && n <= |b| && a[..n] == b[..n]
    ensures n < |a| && n < |b| ==> a[n] != b[n]
  {
    if a != [] && b != [] && a[0] == b[0] then 1 + Shared(a[1..], b[1..]) else 0
  }

  function Ups(n: nat): seq<string> {
    seq(n, _ => "..")
  }

  function Rel(base: string, target: string): string
    requires CleanAbs(base) && CleanAbs(target)
  {
    if base == target then "."
    else
      var from, to := Elements(base), Elements(target);
      var n := Shared(from, to);
      Join(Ups(|from| - n) + to[n..])
  }

  /** pathContains (internal/jvsrunner) and configPathContains (internal/config). */
  predicate Contains(parent: string, child: string)
    requires CleanAbs(parent) && CleanAbs(child)
  {
    var rel := Rel(parent, child);
    rel != "." && rel != ".." && !HasPrefix(rel, "../")
  }

  lemma UpsFirst(n: nat, rest: seq<string>)
    requires n > 0
    ensures var rel := Join(Ups(n) + rest); rel == ".." || HasPrefix(rel, "../")
  {
    var parts := Ups(n) + rest;
    assert parts[0] == "..";
    if |parts| > 1 {
      var rel := Join(parts);
      assert rel == ".." + "/" + Join(parts[1..]);
      assert rel[..3] == "../";
    }
  }

  lemma PlainIsNotUp(parts: seq<string>)
    requires parts != [] && AllPlain(parts)
    ensures var rel := Join(parts); rel != "." && rel != ".." && !HasPrefix(rel, "../")
  {
    var rel := Join(parts);
    SplitJoin(parts);
    assert Plain(parts[0]);
    if rel == "." || rel == ".." {
      SplitOne(rel);
    } else if HasPrefix(rel, "../") {
      assert rel == ".." + "/" + rel[3..];
      SplitFirst("..", rel[3..]);
    }
  }

  /** Containment is being a proper prefix, element by element. */
  lemma ContainsIff(parent: string, child: string)
    requires CleanAbs(parent) && CleanAbs(child)
    ensures Contains(parent, child) <==> Elements(parent) < Elements(child)
  {
    CleanAbsIff(parent, []);
    CleanAbsIff(child, []);
    SameElementsSamePath(parent, child);
    var from, to := Elements(parent), Elements(child);
    if from != to {
      var n := Shared(from, to);
      if n < |from| {
        UpsFirst(|from| - n, to[n..]);
      } else {
        assert from == to[..n];
        assert Ups(0) + to[n..] == to[n..];
        PlainIsNotUp(to[n..]);
      }
    }
  }

  /* ---------- WebDAV names ---------- */

  function TrimSlashes(s: string): string {
    if s != "" && s[0] == '/' then TrimSlashes(s[1..])
    else if s != "" && s[|s| - 1] == '/' then TrimSlashes(s[..|s| - 1])
    else s
  }

  predicate GoodPart(part: string) {
    part != "" && part != "." && part != ".." && '\\' !in part
  }

  /** davSegments, on valid UTF-8; None is the unsafe-path error. */
  function DavSegments(name: string): (segments: Option<seq<string>>)
    ensures segments.Some? ==> forall segment <- segments.value :: GoodPart(segment)
  {
    var raw := TrimSlashes(name);
    if raw == "" then Some([])
    else if forall part <- Split(raw) :: GoodPart(part) then Some(Split(raw))
    else None
  }

  /**
   * Which names davSegments accepts, and what it makes of them: without the slashes around it, a name is
   * empty or splits at its slashes into segments none of which is empty, a dot or two, or has a backslash.
   */
  lemma DavSegmentsIff(name: string)
    ensures var raw := TrimSlashes(name);
            && (DavSegments(name).Some? <==>
                raw == "" || forall part <- Split(raw) :: part != "" && part != "." && part != ".." && '\\' !in part)
            && (DavSegments(name).Some? ==>
                  Join(DavSegments(name).value) == raw && (forall part <- DavSegments(name).value :: NoSlash(part)))
  {
    JoinSplit(TrimSlashes(name));
  }

  /** path.Join: the non-empty elements, joined and cleaned. */
  function PathJoin(parts: seq<string>): string {
    if forall part <- parts :: part == "" then "" else Clean(Join(NonEmpty(parts)))
  }

  function NonEmpty(parts: seq<string>): seq<string> {
    if parts == [] then [] else (if parts[0] == "" then [] else [parts[0]]) + NonEmpty(parts[1..])
  }

  lemma {:induction false} NonEmptyPlain(parts: seq<string>)
    requires AllPlain(parts)
    ensures NonEmpty(parts) == parts
  {
    if parts != [] {
      assert Plain(parts[0]);
      NonEmptyPlain(parts[1..]);
    }
  }

  /** backendPath for a parsed gateway path: the root, or its segments. */
  function BackendPath(root: bool, segments: seq<string>): string {
    if root then "/" else "/" + PathJoin(segments)
  }

  /** The backend reads back exactly the segments the gateway parsed. */
  lemma DavSegmentsUndoBackendPath(segments: seq<string>)
    requires AllPlain(segments) && forall segment <- segments :: '\\' !in segment
    ensures DavSegments(BackendPath(segments == [], segments)) == Some(segments)
  {
    if segments == [] {
      assert TrimSlashes("/") == TrimSlashes("") == "";
    } else {
      assert segments[0] in segments && Plain(segments[0]);
      NonEmptyPlain(segments);
      SplitJoin(segments);
      JoinIsEmptyIff(segments);
      CleanKeepsPlain(false, [], segments);
      assert [] + segments == segments;
      var joined := Join(segments);
      assert joined[0] != '/' && Clean(joined) == joined;
      assert BackendPath(false, segments) == "/" + joined;
      assert ("/" + joined)[1..] == joined;
      assert TrimSlashes("/" + joined) == TrimSlashes(joined) == joined;
    }
  }
}
