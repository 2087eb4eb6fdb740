/** The internal API's route table and its matching (internal/api/routes.go). */
module Routes {
  import opened Common
  import opened Paths

  /** splitRoutePath */
  function SplitRoutePath(path: string): seq<string> {
    var trimmed := TrimSlashes(path);
    if trimmed == "" then [] else Split(trimmed)
  }

  /** strings.Index(s, "}"), or -1. */
  function IndexOfBrace(s: string): (k: int)
    ensures -1 <= k < |s|
  {
    if s == "" then -1
    else if s[0] == '}' then 0
    else
      var rest := IndexOfBrace(s[1..]);
      if rest < 0 then -1 else rest + 1
  }

  /** routeSegmentParam: a parameter name ("" for none) and its value, when the segment matches. */
  function RouteSegmentParam(pattern: string, segment: string): Option<(string, string)> {
    if !HasPrefix(pattern, "{") then if pattern == segment then Some(("", "")) else None
    else
      var end := IndexOfBrace(pattern);
      if end <= 1 then None
      else
        var name, suffix := pattern[1..end], pattern[end + 1..];
        if !HasSuffix(segment, suffix) then None
        else
          var value := segment[..|segment| - |suffix|];
          if value == "" then None else Some((name, value))
  }

  /** One iteration of RoutePathParams: nothing more after a mismatch, and no name twice. */
  function Add(params: Option<map<string, string>>, one: Option<(string, string)>): Option<map<string, string>> {
    if params.None? || one.None? then None
    else if one.value.0 == "" then params
    else if one.value.0 in params.value then None
    else Some(params.value[one.value.0 := one.value.1])
  }

  function Params(patterns: seq<string>, segments: seq<string>): Option<map<string, string>>
    requires |patterns| == |segments|
  {
    if patterns == [] then Some(map[])
    else
      var n := |patterns| - 1;
      Add(Params(patterns[..n], segments[..n]), RouteSegmentParam(patterns[n], segments[n]))
  }

  /** RoutePathParams, with the loop and the map of the source. */
  method RoutePathParams(pattern: string, path: string) returns (params: Option<map<string, string>>)
    ensures params == PathParams(pattern, path)
  {
    var patterns, segments := SplitRoutePath(pattern), SplitRoutePath(path);
    if |patterns| != |segments| {
      return None;
    }
    var found: map<string, string> := map[];
    for i := 0 to |patterns|
      invariant Params(patterns[..i], segments[..i]) == Some(found)
    {
      assert patterns[..i + 1][..i] == patterns[..i] && segments[..i + 1][..i] == segments[..i];
      var one := RouteSegmentParam(patterns[i], segments[i]);
      if one.None? || (one.value.0 != "" && one.value.0 in found) {
        ParamsStop(patterns, segments, i + 1);
        return None;
      }
      if one.value.0 != "" {
        found := found[one.value.0 := one.value.1];
      }
    }
    assert patterns[..|patterns|] == patterns && segments[..|segments|] == segments;
    params := Some(found);
  }

  lemma {:induction false} ParamsStop(patterns: seq<string>, segments: seq<string>, i: nat)
    requires |patterns| == |segments| && i <= |patterns| && Params(patterns[..i], segments[..i]) == None
    ensures Params(patterns, segments) == None
    decreases |patterns| - i
  {
    if i == |patterns| {
      assert patterns[..i] == patterns && segments[..i] == segments;
    } else {
      assert patterns[..i + 1][..i] == patterns[..i] && segments[..i + 1][..i] == segments[..i];
      ParamsStop(patterns, segments, i + 1);
    }
  }

  function PathParams(pattern: string, path: string): Option<map<string, string>> {
    var patterns, segments := SplitRoutePath(pattern), SplitRoutePath(path);
    if |patterns| != |segments| then None else Params(patterns, segments)
  }

  /* ---------- Patterns by their parts ---------- */

  datatype Segment = Literal(text: string) | Param(name: string, suffix: string)
  {
    function Text(): string {
      match this
      case Literal(text) => text
      case Param(name, suffix) => "{" + name + "}" + suffix
    }

    predicate WellFormed() {
      match this
      case Literal(text) => text != "" && text[0] != '{' && NoSlash(text)
      case Param(name, suffix) => name != "" && '}' !in name && NoSlash(name) && NoSlash(suffix)
    }

    /** What the segment accepts, said without strings.Index. */
    predicate Accepts(segment: string) {
      match this
      case Literal(text) => segment == text
      case Param(_, suffix) => |segment| > |suffix| && HasSuffix(segment, suffix)
    }

    function Fill(values: map<string, string>): string
      requires Param? ==> name in values
    {
      match this
      case Literal(text) => text
      case Param(name, suffix) => values[name] + suffix
    }
  }

  lemma {:induction false} BraceAfter(name: string, rest: string)
    requires '}' !in name
    ensures IndexOfBrace(name + "}" + rest) == |name|
  {
    var s := name + "}" + rest;
    if name == "" {
      assert s[0] == '}';
    } else {
      BraceAfter(name[1..], rest);
      assert s[1..] == name[1..] + "}" + rest;
    }
  }

  lemma SegmentMatches(segment: Segment, text: string)
    requires segment.WellFormed()
    ensures RouteSegmentParam(segment.Text(), text) == Yield(segment, text)
  {
    match segment
    case Literal(_) =>
    case Param(name, suffix) =>
      var pattern := segment.Text();
      assert pattern == "{" + (name + "}" + suffix);
      assert pattern[1..] == name + "}" + suffix;
      BraceAfter(name, suffix);
      assert IndexOfBrace(pattern) == |name| + 1;
      assert pattern[1..|name| + 1] == name && pattern[|name| + 2..] == suffix;
  }

  function Texts(segments: seq<Segment>): (texts: seq<string>)
    ensures |texts| == |segments|
    ensures forall i | 0 <= i < |segments| :: texts[i] == segments[i].Text()
  {
    seq(|segments|, i requires 0 <= i < |segments| => segments[i].Text())
  }

  predicate WellFormed(segments: seq<Segment>) {
    forall segment <- segments :: segment.WellFormed()
  }

  function Pattern(segments: seq<Segment>): string {
    "/" + Join(Texts(segments))
  }

  /** Splitting a path made of names gives the names back. */
  lemma SplitRouteJoin(names: seq<string>)
    requires AllNames(names)
    ensures SplitRoutePath("/" + Join(names)) == names
  {
    var joined := Join(names);
    JoinIsEmptyIff(names);
    assert ("/" + joined)[1..] == joined;
    assert TrimSlashes("/" + joined) == TrimSlashes(joined) == joined;
    if names != [] {
      assert forall part <- names :: NoSlash(part);
      SplitJoin(names);
    }
  }

  lemma TextsAreNames(segments: seq<Segment>)
    requires WellFormed(segments)
    ensures AllNames(Texts(segments))
  {
    forall text <- Texts(segments) ensures text != "" && NoSlash(text) {
      var i :| 0 <= i < |segments| && Texts(segments)[i] == text;
      assert segments[i].WellFormed();
    }
  }

  /** What a pattern accepts, segment by segment. */
  predicate Accepts(segments: seq<Segment>, path: seq<string>) {
    |segments| == |path| && forall i | 0 <= i < |path| :: segments[i].Accepts(path[i])
  }

  /** What a matched segment yields. */
  function Yield(segment: Segment, text: string): Option<(string, string)> {
    if !segment.Accepts(text) then None
    else
      match segment
      case Literal(_) => Some(("", ""))
      case Param(name, suffix) => Some((name, text[..|text| - |suffix|]))
  }

  /** Params over the parts of a pattern. */
  function ParamsOf(segments: seq<Segment>, path: seq<string>): Option<map<string, string>>
    requires |segments| == |path|
  {
    if segments == [] then Some(map[])
    else
      var n := |segments| - 1;
      Add(ParamsOf(segments[..n], path[..n]), Yield(segments[n], path[n]))
  }

  lemma {:induction false} ParamsByParts(segments: seq<Segment>, path: seq<string>)
    requires WellFormed(segments) && |segments| == |path|
    ensures Params(Texts(segments), path) == ParamsOf(segments, path)
  {
    if segments != [] {
      var n := |segments| - 1;
      assert Texts(segments)[..n] == Texts(segments[..n]);
      ParamsByParts(segments[..n], path[..n]);
      assert segments[n] in segments;
      SegmentMatches(segments[n], path[n]);
    }
  }

  /* ---------- Filling a pattern and reading it back ---------- */

  function Names(segments: seq<Segment>): set<string> {
    set i | 0 <= i < |segments| && segments[i].Param? :: segments[i].name
  }

  predicate DistinctNames(segments: seq<Segment>) {
    forall i, j | 0 <= i < j < |segments| && segments[i].Param? && segments[j].Param? ::
        segments[i].name != segments[j].name
  }

  function Filled(segments: seq<Segment>, values: map<string, string>): (path: seq<string>)
    requires Names(segments) <= values.Keys
    ensures |path| == |segments|
    ensures forall i | 0 <= i < |segments| ::
              (segments[i].Param? ==> segments[i].name in values) && path[i] == segments[i].Fill(values)
  {
    assert forall i | 0 <= i < |segments| && segments[i].Param? :: segments[i].name in Names(segments);
    seq(|segments|, i requires 0 <= i < |segments| && (segments[i].Param? ==> segments[i].name in values) =>
        segments[i].Fill(values))
  }

  function Restricted(values: map<string, string>, names: set<string>): map<string, string> {
    map name | name in names && name in values :: values[name]
  }

  lemma NamesOfInit(segments: seq<Segment>)
    requires segments != []
    ensures var n := |segments| - 1;
            var last := segments[n];
            && Names(segments) == Names(segments[..n]) + (if last.Param? then {last.name} else {})
            && (DistinctNames(segments) <==>
                DistinctNames(segments[..n]) && (last.Param? ==> last.name !in Names(segments[..n])))
  {
    var n := |segments| - 1;
    var init, last := segments[..n], segments[n];
    forall name | name in Names(segments) ensures name in Names(init) || (last.Param? && name == last.name) {
      var i :| 0 <= i < |segments| && segments[i].Param? && segments[i].name == name;
      assert i < n ==> init[i] == segments[i];
    }
    forall name | name in Names(init) ensures name in Names(segments) {
      var i :| 0 <= i < |init| && init[i].Param? && init[i].name == name;
      assert segments[i] == init[i];
    }
    if last.Param? {
      assert segments[n].name in Names(segments);
      LastNameIsNew(segments);
    }
  }

  lemma LastNameIsNew(segments: seq<Segment>)
    requires segments != [] && segments[|segments| - 1].Param?
    ensures var n := |segments| - 1;
            segments[n].name in Names(segments[..n]) <==>
            exists i :: 0 <= i < n && segments[i].Param? && segments[i].name == segments[n].name
  {
    var n := |segments| - 1;
    forall i | 0 <= i < n && segments[i].Param? ensures segments[i].name in Names(segments[..n]) {
      assert segments[..n][i] == segments[i];
    }
    if segments[n].name in Names(segments[..n]) {
      var i :| 0 <= i < n && segments[..n][i].Param? && segments[..n][i].name == segments[n].name;
      assert segments[i] == segments[..n][i];
    }
  }

  /**
   * Segment by segment: parameters are found exactly when no name is used twice and every segment is
   * accepted; they have exactly the pattern's names, and put back into it they give the path.
   */
  lemma {:induction false} ParamsExactly(segments: seq<Segment>, path: seq<string>)
    requires WellFormed(segments) && |segments| == |path|
    ensures ParamsOf(segments, path).Some? <==> DistinctNames(segments) && Accepts(segments, path)
    ensures ParamsOf(segments, path).Some? ==>
              var params := ParamsOf(segments, path).value;
              params.Keys == Names(segments) && Filled(segments, params) == path
  {
    if segments == [] {
      assert Names(segments) == {};
    } else {
      var n := |segments| - 1;
      ParamsExactly(segments[..n], path[..n]);
      NamesOfInit(segments);
      assert segments[n] in segments;
      AcceptsInit(segments, path);
      if ParamsOf(segments, path).Some? {
        FilledOneMore(segments, path, ParamsOf(segments[..n], path[..n]).value, ParamsOf(segments, path).value);
      }
    }
  }

  lemma AcceptsInit(segments: seq<Segment>, path: seq<string>)
    requires segments != [] && |segments| == |path|
    ensures var n := |segments| - 1;
            Accepts(segments, path) <==> Accepts(segments[..n], path[..n]) && segments[n].Accepts(path[n])
  {
    var n := |segments| - 1;
    if Accepts(segments[..n], path[..n]) && segments[n].Accepts(path[n]) {
      forall i | 0 <= i < |path| ensures segments[i].Accepts(path[i]) {
        assert i < n ==> segments[..n][i] == segments[i] && path[..n][i] == path[i];
      }
    }
  }

  /** What a matched segment yields, put back into it, is the text it matched. */
  lemma FillUndoesYield(segment: Segment, text: string, params: map<string, string>)
    requires Yield(segment, text).Some? && (segment.Param? ==> segment.name in params)
    requires segment.Param? ==> params[segment.name] == Yield(segment, text).value.1
    ensures segment.Fill(params) == text
  {
    if segment.Param? {
      assert text == text[..|text| - |segment.suffix|] + text[|text| - |segment.suffix|..];
    }
  }

  /** One more matched segment: its name, if it has one, is added, and nothing else changes. */
  lemma Added(segment: Segment, text: string, before: map<string, string>, after: map<string, string>)
    requires segment.WellFormed() && Add(Some(before), Yield(segment, text)) == Some(after)
    ensures after.Keys == before.Keys + (if segment.Param? then {segment.name} else {})
    ensures forall name <- before :: after[name] == before[name]
    ensures segment.Fill(after) == text
  {
    FillUndoesYield(segment, text, after);
  }

  lemma FilledExtends(segments: seq<Segment>, before: map<string, string>, after: map<string, string>)
    requires Names(segments) == before.Keys && before.Keys <= after.Keys
    requires forall name <- before :: after[name] == before[name]
    ensures Filled(segments, after) == Filled(segments, before)
  {
    forall i | 0 <= i < |segments| ensures Filled(segments, after)[i] == Filled(segments, before)[i] {
      if segments[i].Param? {
        assert segments[i].name in Names(segments);
      }
    }
  }

  lemma FilledLast(segments: seq<Segment>, values: map<string, string>)
    requires segments != [] && Names(segments) <= values.Keys
    ensures var n := |segments| - 1;
            && Names(segments[..n]) <= values.Keys && (segments[n].Param? ==> segments[n].name in values)
            && Filled(segments, values) == Filled(segments[..n], values) + [segments[n].Fill(values)]
  {
    NamesOfInit(segments);
  }

  lemma FilledOneMore(segments: seq<Segment>, path: seq<string>, before: map<string, string>,
                      after: map<string, string>)
    requires segments != [] && |segments| == |path| && segments[|segments| - 1].WellFormed()
    requires var n := |segments| - 1;
             && before.Keys == Names(segments[..n]) && Filled(segments[..n], before) == path[..n]
             && Add(Some(before), Yield(segments[n], path[n])) == Some(after)
    ensures after.Keys == Names(segments) && Filled(segments, after) == path
  {
    var n := |segments| - 1;
    NamesOfInit(segments);
    Added(segments[n], path[n], before, after);
    FilledExtends(segments[..n], before, after);
    FilledLast(segments, after);
    assert path == path[..n] + [path[n]];
  }

  /**
   * A well-formed pattern matches a path exactly when it uses no name twice and its segments accept
   * the path's segments one by one; and filling the matched parameters back in gives these segments.
   */
  lemma MatchIffAccepts(segments: seq<Segment>, path: string)
    requires WellFormed(segments)
    ensures PathParams(Pattern(segments), path).Some? <==>
            DistinctNames(segments) && Accepts(segments, SplitRoutePath(path))
    ensures PathParams(Pattern(segments), path).Some? ==>
              var params := PathParams(Pattern(segments), path).value;
              params.Keys == Names(segments) && Filled(segments, params) == SplitRoutePath(path)
  {
    TextsAreNames(segments);
    SplitRouteJoin(Texts(segments));
    if |segments| == |SplitRoutePath(path)| {
      ParamsByParts(segments, SplitRoutePath(path));
      ParamsExactly(segments, SplitRoutePath(path));
    }
  }

  lemma FillAccepted(segment: Segment, values: map<string, string>)
    requires segment.WellFormed() && (segment.Param? ==> segment.name in values && values[segment.name] != "")
    ensures segment.Accepts(segment.Fill(values))
    ensures var text := segment.Fill(values);
            segment.Param? ==> text[..|text| - |segment.suffix|] == values[segment.name]
  {
  }

  lemma RestrictedGrows(values: map<string, string>, names: set<string>, name: string)
    requires name in values
    ensures Restricted(values, names + {name}) == Restricted(values, names)[name := values[name]]
  {
  }

  lemma FilledInit(segments: seq<Segment>, values: map<string, string>)
    requires segments != [] && DistinctNames(segments) && Names(segments) <= values.Keys
    ensures Names(segments[..|segments| - 1]) <= values.Keys
    ensures Filled(segments, values)[..|segments| - 1] == Filled(segments[..|segments| - 1], values)
  {
    NamesOfInit(segments);
  }

  predicate AllFilled(values: map<string, string>) {
    forall name <- values :: values[name] != ""
  }

  lemma {:induction false} FilledParams(segments: seq<Segment>, values: map<string, string>)
    requires WellFormed(segments) && DistinctNames(segments) && Names(segments) <= values.Keys && AllFilled(values)
    ensures ParamsOf(segments, Filled(segments, values)) == Some(Restricted(values, Names(segments)))
  {
    if segments == [] {
      assert Names(segments) == {};
    } else {
      FilledInit(segments, values);
      FilledParams(segments[..|segments| - 1], values);
      ExtendRestricted(segments, values);
    }
  }

  lemma ExtendRestricted(segments: seq<Segment>, values: map<string, string>)
    requires segments != [] && WellFormed(segments) && DistinctNames(segments) && Names(segments) <= values.Keys
             && AllFilled(values)
    ensures var last, before := segments[|segments| - 1], Restricted(values, Names(segments[..|segments| - 1]));
            && (last.Param? ==> last.name in values && last.name !in before)
            && Add(Some(before), Yield(last, last.Fill(values))) == Some(Restricted(values, Names(segments)))
  {
    var last := segments[|segments| - 1];
    assert last in segments;
    NamesOfInit(segments);
    if last.Param? {
      assert last.name in Names(segments);
      RestrictedGrows(values, Names(segments[..|segments| - 1]), last.name);
    } else {
      assert Names(segments) == Names(segments[..|segments| - 1]);
    }
    FillAccepted(last, values);
  }

  /** Filling any pattern with non-empty slash-free values and matching it back returns those values. */
  lemma FillThenMatch(segments: seq<Segment>, values: map<string, string>)
    requires WellFormed(segments) && DistinctNames(segments) && Names(segments) == values.Keys
    requires forall name <- values :: values[name] != "" && NoSlash(values[name])
    ensures PathParams(Pattern(segments), "/" + Join(Filled(segments, values))) == Some(values)
  {
    var path := Filled(segments, values);
    TextsAreNames(segments);
    SplitRouteJoin(Texts(segments));
    FilledAreNames(segments, values);
    SplitRouteJoin(path);
    ParamsByParts(segments, path);
    FilledParams(segments, values);
    assert Restricted(values, Names(segments)) == values;
  }

  lemma FilledAreNames(segments: seq<Segment>, values: map<string, string>)
    requires WellFormed(segments) && Names(segments) == values.Keys
    requires forall name <- values :: values[name] != "" && NoSlash(values[name])
    ensures AllNames(Filled(segments, values))
  {
    var path := Filled(segments, values);
    forall part <- path ensures part != "" && NoSlash(part) {
      var i :| 0 <= i < |path| && path[i] == part;
      assert segments[i] in segments;
    }
  }
}

/** The internal V1 route table, with its paths by their parts (internal/api/routes.go:19-51). */
module RouteTable {
  import opened Common
  import opened Routes

  /** A pattern segment that is well formed by type, so every table entry is checked where it is written. */
  type Part = segment: Segment | segment.WellFormed() witness Literal("x")

  datatype Route = Route(verb: string, segments: seq<Part>, operationId: string)

  const INTERNAL: Part := Literal("internal")

  const V1: Part := Literal("v1")

  const MOUNTS: Part := Literal("workload-mount-bindings")

  const MOUNT_ID: Part := Param("mountBindingId", "")

  const PLAN: Part := Literal("orchestrator-plan")

  const ENSURE_VOLUME := Route("POST", [INTERNAL, V1, Literal("volumes"), Param("volumeId", ":ensure")], "ensureVolume")
  const GET_VOLUME_HEALTH :=
    Route("GET", [INTERNAL, V1, Literal("volumes"), Param("volumeId", ""), Literal("health")], "getVolumeHealth")
  const UPSERT_NAMESPACE :=
    Route("PUT", [INTERNAL, V1, Literal("namespaces"), Param("namespaceId", "")], "upsertNamespace")
  const DISABLE_NAMESPACE :=
    Route("POST", [INTERNAL, V1, Literal("namespaces"), Param("namespaceId", ":disable")], "disableNamespace")
  const PUT_NAMESPACE_VOLUME_BINDING :=
    Route("PUT", [INTERNAL, V1, Literal("namespaces"), Param("namespaceId", ""), Literal("volume-binding")],
          "putNamespaceVolumeBinding")
  const GET_NAMESPACE_VOLUME_BINDING :=
    Route("GET", [INTERNAL, V1, Literal("namespaces"), Param("namespaceId", ""), Literal("volume-binding")],
          "getNamespaceVolumeBinding")
  const CREATE_REPO := Route("POST", [INTERNAL, V1, Literal("repos")], "createRepo")
  const LIST_REPOS := Route("GET", [INTERNAL, V1, Literal("repos")], "listRepos")
  const GET_REPO := Route("GET", [INTERNAL, V1, Literal("repos"), Param("repoId", "")], "getRepo")
  const ARCHIVE_REPO := Route("POST", [INTERNAL, V1, Literal("repos"), Param("repoId", ":archive")], "archiveRepo")
  const RESTORE_ARCHIVED_REPO :=
    Route("POST", [INTERNAL, V1, Literal("repos"), Param("repoId", ":restore-archived")], "restoreArchivedRepo")
  const DELETE_REPO := Route("POST", [INTERNAL, V1, Literal("repos"), Param("repoId", ":delete")], "deleteRepo")
  const RESTORE_TOMBSTONED_REPO :=
    Route("POST", [INTERNAL, V1, Literal("repos"), Param("repoId", ":restore-tombstoned")], "restoreTombstonedRepo")
  const PURGE_REPO := Route("POST", [INTERNAL, V1, Literal("repos"), Param("repoId", ":purge")], "purgeRepo")
  const CREATE_SAVE_POINT :=
    Route("POST", [INTERNAL, V1, Literal("repos"), Param("repoId", ""), Literal("save-points")], "createSavePoint")
  const LIST_SAVE_POINTS :=
    Route("GET", [INTERNAL, V1, Literal("repos"), Param("repoId", ""), Literal("save-points")], "listSavePoints")
  const RESTORE := Route("POST", [INTERNAL, V1, Literal("repos"), Param("repoId", ""), Literal("restore")], "restore")
  const CREATE_REPO_TEMPLATE := Route("POST", [INTERNAL, V1, Literal("repo-templates")], "createRepoTemplate")
  const CLONE_REPO_TEMPLATE :=
    Route("POST", [INTERNAL, V1, Literal("repo-templates"), Param("templateId", ":clone")], "cloneRepoTemplate")
  const CREATE_EXPORT :=
    Route("POST", [INTERNAL, V1, Literal("repos"), Param("repoId", ""), Literal("exports")], "createExport")
  const GET_EXPORT := Route("GET", [INTERNAL, V1, Literal("exports"), Param("exportId", "")], "getExport")
  const REVOKE_EXPORT := Route("DELETE", [INTERNAL, V1, Literal("exports"), Param("exportId", "")], "revokeExport")
  const CREATE_WORKLOAD_MOUNT_BINDING :=
    Route("POST", [INTERNAL, V1, Literal("repos"), Param("repoId", ""), MOUNTS], "createWorkloadMountBinding")
  const GET_WORKLOAD_MOUNT_BINDING := Route("GET", [INTERNAL, V1, MOUNTS, MOUNT_ID], "getWorkloadMountBinding")
  const UPDATE_WORKLOAD_MOUNT_BINDING_STATUS :=
    Route("PATCH", [INTERNAL, V1, MOUNTS, MOUNT_ID, Literal("status")], "updateWorkloadMountBindingStatus")
  const GET_ORCHESTRATOR_MOUNT_PLAN := Route("GET", [INTERNAL, V1, MOUNTS, MOUNT_ID, PLAN], "getOrchestratorMountPlan")
  const HEARTBEAT_WORKLOAD_MOUNT_BINDING :=
    Route("POST", [INTERNAL, V1, MOUNTS, Param("mountBindingId", ":heartbeat")], "heartbeatWorkloadMountBinding")
  const RELEASE_WORKLOAD_MOUNT_BINDING :=
    Route("POST", [INTERNAL, V1, MOUNTS, Param("mountBindingId", ":release")], "releaseWorkloadMountBinding")
  const REVOKE_WORKLOAD_MOUNT_BINDING :=
    Route("POST", [INTERNAL, V1, MOUNTS, Param("mountBindingId", ":revoke")], "revokeWorkloadMountBinding")
  const GET_OPERATION := Route("GET", [INTERNAL, V1, Literal("operations"), Param("operationId", "")], "getOperation")
  const REPAIR_OPERATION :=
    Route("POST", [INTERNAL, V1, Literal("operations"), Param("operationId", ":repair")], "repairOperation")

  const TABLE: seq<Route> := [
    ENSURE_VOLUME, GET_VOLUME_HEALTH, UPSERT_NAMESPACE, DISABLE_NAMESPACE, PUT_NAMESPACE_VOLUME_BINDING,
    GET_NAMESPACE_VOLUME_BINDING, CREATE_REPO, LIST_REPOS, GET_REPO, ARCHIVE_REPO, RESTORE_ARCHIVED_REPO,
    DELETE_REPO, RESTORE_TOMBSTONED_REPO, PURGE_REPO, CREATE_SAVE_POINT, LIST_SAVE_POINTS, RESTORE,
    CREATE_REPO_TEMPLATE, CLONE_REPO_TEMPLATE, CREATE_EXPORT, GET_EXPORT, REVOKE_EXPORT,
    CREATE_WORKLOAD_MOUNT_BINDING, GET_WORKLOAD_MOUNT_BINDING, UPDATE_WORKLOAD_MOUNT_BINDING_STATUS,
    GET_ORCHESTRATOR_MOUNT_PLAN, HEARTBEAT_WORKLOAD_MOUNT_BINDING, RELEASE_WORKLOAD_MOUNT_BINDING,
    REVOKE_WORKLOAD_MOUNT_BINDING, GET_OPERATION, REPAIR_OPERATION
  ]

  /** What RouteMetadataForRequest asks of one route, for a trimmed upper-case method. */
  predicate Matches(route: Route, verb: string, path: string) {
    verb == route.verb && PathParams(Pattern(route.segments), path).Some?
  }

  /** RouteMetadataForRequest and the resolvers over part of the table: the first route that matches. */
  function FirstMatch(routes: seq<Route>, verb: string, path: string): Option<Route> {
    if routes == [] then None
    else if Matches(routes[0], verb, path) then Some(routes[0])
    else FirstMatch(routes[1..], verb, path)
  }

  /** From the last colon on, or nothing. */
  function Tail(s: string): string {
    if ':' !in s then ""
    else if ':' !in s[1..] && s[0] == ':' then s
    else Tail(s[1..])
  }

  lemma {:induction false} TailOfSuffix(s: string, suffix: string)
    requires HasSuffix(s, suffix) && suffix != "" && suffix[0] == ':' && ':' !in suffix[1..]
    ensures Tail(s) == suffix
  {
    if |s| == |suffix| {
      assert s == suffix;
    } else {
      var k := |s| - |suffix|;
      assert s[1..][k - 1..] == suffix;
      assert s[1..][k - 1] == ':';
      TailOfSuffix(s[1..], suffix);
    }
  }

  /** The only table index a request can match, read off its method and segments. */
  function Pick(verb: string, path: seq<string>): int {
    if |path| == 3 then
      if path[2] == "repos" then (if verb == "POST" then 6 else 7) else 17
    else if |path| == 4 then
      if verb == "POST" then PickAction(path[2], Tail(path[3]))
      else if verb == "PUT" then 2
      else if verb == "DELETE" then 21
      else if path[2] == "repos" then 8
      else if path[2] == "exports" then 20
      else if path[2] == "operations" then 29
      else 23
    else if |path| == 5 then PickNested(verb, path[2], path[4])
    else -1
  }

  function PickAction(resource: string, action: string): int {
    if resource == "volumes" then 0
    else if resource == "namespaces" then 3
    else if resource == "repo-templates" then 18
    else if resource == "operations" then 30
    else if action == ":archive" then 9
    else if action == ":restore-archived" then 10
    else if action == ":delete" then 11
    else if action == ":restore-tombstoned" then 12
    else if action == ":purge" then 13
    else if action == ":heartbeat" then 26
    else if action == ":release" then 27
    else if action == ":revoke" then 28
    else -1
  }

  function PickNested(verb: string, resource: string, leaf: string): int {
    if resource == "volumes" then 1
    else if resource == "namespaces" then (if verb == "PUT" then 4 else 5)
    else if leaf == "save-points" then (if verb == "POST" then 14 else 15)
    else if leaf == "restore" then 16
    else if leaf == "exports" then 19
    else if leaf == "workload-mount-bindings" then 22
    else if leaf == "status" then 24
    else if leaf == "orchestrator-plan" then 25
    else -1
  }

  lemma ThreePicks(resource: string, path: seq<string>)
    requires Accepts([INTERNAL, V1, Literal(resource)], path)
    ensures |path| == 3 && path[2] == resource
  {
    assert [INTERNAL, V1, Literal(resource)][2].Accepts(path[2]);
  }

  lemma FourPicks(resource: string, name: string, suffix: string, path: seq<string>)
    requires Accepts([INTERNAL, V1, Literal(resource), Param(name, suffix)], path)
    ensures |path| == 4 && path[2] == resource
    ensures suffix != "" && suffix[0] == ':' && ':' !in suffix[1..] ==> Tail(path[3]) == suffix
  {
    var segments := [INTERNAL, V1, Literal(resource), Param(name, suffix)];
    assert segments[2].Accepts(path[2]) && segments[3].Accepts(path[3]);
    if suffix != "" && suffix[0] == ':' && ':' !in suffix[1..] {
      TailOfSuffix(path[3], suffix);
    }
  }

  lemma FivePicks(resource: string, name: string, leaf: string, path: seq<string>)
    requires Accepts([INTERNAL, V1, Literal(resource), Param(name, ""), Literal(leaf)], path)
    ensures |path| == 5 && path[2] == resource && path[4] == leaf
  {
    var segments := [INTERNAL, V1, Literal(resource), Param(name, ""), Literal(leaf)];
    assert segments[2].Accepts(path[2]) && segments[4].Accepts(path[4]);
  }

  lemma ThreeRoutesPick(i: nat, path: seq<string>)
    requires i in {6, 7, 17} && Accepts(TABLE[i].segments, path)
    ensures Pick(TABLE[i].verb, path) == i
  {
    match i
    case 6 => ThreePicks("repos", path);
    case 7 => ThreePicks("repos", path);
    case 17 => ThreePicks("repo-templates", path);
    case _ =>
  }

  lemma ReadRoutesPick(i: nat, path: seq<string>)
    requires i in {2, 8, 20, 21, 23, 29} && Accepts(TABLE[i].segments, path)
    ensures Pick(TABLE[i].verb, path) == i
  {
    match i
    case 2 => FourPicks("namespaces", "namespaceId", "", path);
    case 8 => FourPicks("repos", "repoId", "", path);
    case 20 => FourPicks("exports", "exportId", "", path);
    case 21 => FourPicks("exports", "exportId", "", path);
    case 23 => FourPicks("workload-mount-bindings", "mountBindingId", "", path);
    case 29 => FourPicks("operations", "operationId", "", path);
    case _ =>
  }

  lemma PlainActionsPick(i: nat, path: seq<string>)
    requires i in {0, 3} && Accepts(TABLE[i].segments, path)
    ensures Pick(TABLE[i].verb, path) == i
  {
    match i
    case 0 => FourPicks("volumes", "volumeId", ":ensure", path);
    case 3 => FourPicks("namespaces", "namespaceId", ":disable", path);
    case _ =>
  }

  lemma LatePlainActionsPick(i: nat, path: seq<string>)
    requires i in {18, 30} && Accepts(TABLE[i].segments, path)
    ensures Pick(TABLE[i].verb, path) == i
  {
    match i
    case 18 => FourPicks("repo-templates", "templateId", ":clone", path);
    case 30 => FourPicks("operations", "operationId", ":repair", path);
    case _ =>
  }

  lemma RepoActionNumbers()
    ensures PickAction("repos", ":archive") == 9
    ensures PickAction("repos", ":restore-archived") == 10
    ensures PickAction("repos", ":delete") == 11
    ensures PickAction("repos", ":restore-tombstoned") == 12
    ensures PickAction("repos", ":purge") == 13
  {
  }

  lemma RepoActionNames()
    ensures ':' !in ":archive"[1..]
    ensures ':' !in ":restore-archived"[1..]
    ensures ':' !in ":delete"[1..]
    ensures ':' !in ":restore-tombstoned"[1..]
    ensures ':' !in ":purge"[1..]
  {
    assert ":archive"[1..] == "archive";
    assert ":restore-archived"[1..] == "restore-archived";
    assert ":delete"[1..] == "delete";
    assert ":restore-tombstoned"[1..] == "restore-tombstoned";
    assert ":purge"[1..] == "purge";
  }

  lemma RepoActionsPick(i: nat, path: seq<string>)
    requires i in {9, 10, 11, 12, 13} && Accepts(TABLE[i].segments, path)
    ensures Pick(TABLE[i].verb, path) == i
  {
    RepoActionNumbers();
    RepoActionNames();
    match i
    case 9 => FourPicks("repos", "repoId", ":archive", path);
    case 10 => FourPicks("repos", "repoId", ":restore-archived", path);
    case 11 => FourPicks("repos", "repoId", ":delete", path);
    case 12 => FourPicks("repos", "repoId", ":restore-tombstoned", path);
    case 13 => FourPicks("repos", "repoId", ":purge", path);
    case _ =>
  }

  lemma MountActionNumbers()
    ensures PickAction("workload-mount-bindings", ":heartbeat") == 26
    ensures PickAction("workload-mount-bindings", ":release") == 27
    ensures PickAction("workload-mount-bindings", ":revoke") == 28
  {
  }

  lemma MountActionNames()
    ensures ':' !in ":heartbeat"[1..]
    ensures ':' !in ":release"[1..]
    ensures ':' !in ":revoke"[1..]
  {
    assert ":heartbeat"[1..] == "heartbeat";
    assert ":release"[1..] == "release";
    assert ":revoke"[1..] == "revoke";
  }

  lemma MountActionsPick(i: nat, path: seq<string>)
    requires i in {26, 27, 28} && Accepts(TABLE[i].segments, path)
    ensures Pick(TABLE[i].verb, path) == i
  {
    MountActionNumbers();
    MountActionNames();
    match i
    case 26 => FourPicks("workload-mount-bindings", "mountBindingId", ":heartbeat", path);
    case 27 => FourPicks("workload-mount-bindings", "mountBindingId", ":release", path);
    case 28 => FourPicks("workload-mount-bindings", "mountBindingId", ":revoke", path);
    case _ =>
  }

  lemma ActionRoutesPick(i: nat, path: seq<string>)
    requires i in {0, 3, 9, 10, 11, 12, 13, 18, 26, 27, 28, 30} && Accepts(TABLE[i].segments, path)
    ensures Pick(TABLE[i].verb, path) == i
  {
    if i in {0, 3} {
      PlainActionsPick(i, path);
    } else if i in {18, 30} {
      LatePlainActionsPick(i, path);
    } else if i in {9, 10, 11, 12, 13} {
      RepoActionsPick(i, path);
    } else {
      MountActionsPick(i, path);
    }
  }

  lemma NestedRoutesPick(i: nat, path: seq<string>)
    requires i in {1, 4, 5, 14, 15, 16, 19, 22, 24, 25} && Accepts(TABLE[i].segments, path)
    ensures Pick(TABLE[i].verb, path) == i
  {
    match i
    case 1 => FivePicks("volumes", "volumeId", "health", path);
    case 4 => FivePicks("namespaces", "namespaceId", "volume-binding", path);
    case 5 => FivePicks("namespaces", "namespaceId", "volume-binding", path);
    case 14 => FivePicks("repos", "repoId", "save-points", path);
    case 15 => FivePicks("repos", "repoId", "save-points", path);
    case 16 => FivePicks("repos", "repoId", "restore", path);
    case 19 => FivePicks("repos", "repoId", "exports", path);
    case 22 => FivePicks("repos", "repoId", "workload-mount-bindings", path);
    case 24 => FivePicks("workload-mount-bindings", "mountBindingId", "status", path);
    case 25 => FivePicks("workload-mount-bindings", "mountBindingId", "orchestrator-plan", path);
    case _ =>
  }

  /** Every route of the table accepts only requests that Pick assigns to it. */
  lemma RoutesPick(i: nat, path: seq<string>)
    requires i < |TABLE| && Accepts(TABLE[i].segments, path)
    ensures Pick(TABLE[i].verb, path) == i
  {
    if i in {6, 7, 17} {
      ThreeRoutesPick(i, path);
    } else if i in {2, 8, 20, 21, 23, 29} {
      ReadRoutesPick(i, path);
    } else if i in {0, 3, 9, 10, 11, 12, 13, 18, 26, 27, 28, 30} {
      ActionRoutesPick(i, path);
    } else {
      NestedRoutesPick(i, path);
    }
  }

  /** For every method and path at most one route of the table matches. */
  lemma AtMostOneRoute(i: nat, j: nat, verb: string, path: string)
    requires i < |TABLE| && j < |TABLE|
    ensures Matches(TABLE[i], verb, path) && Matches(TABLE[j], verb, path) ==> i == j
  {
    if Matches(TABLE[i], verb, path) && Matches(TABLE[j], verb, path) {
      MatchIffAccepts(TABLE[i].segments, path);
      MatchIffAccepts(TABLE[j].segments, path);
      RoutesPick(i, SplitRoutePath(path));
      RoutesPick(j, SplitRoutePath(path));
    }
  }

  ghost predicate InTable(route: Route) {
    exists i :: 0 <= i < |TABLE| && TABLE[i] == route
  }

  lemma MatchIsUnique(a: Route, b: Route, verb: string, path: string)
    ensures InTable(a) && InTable(b) && Matches(a, verb, path) && Matches(b, verb, path) ==> a == b
  {
    if InTable(a) && InTable(b) {
      var i :| 0 <= i < |TABLE| && TABLE[i] == a;
      var j :| 0 <= j < |TABLE| && TABLE[j] == b;
      AtMostOneRoute(i, j, verb, path);
    }
  }

  lemma {:induction false} FirstMatchFinds(routes: seq<Route>, verb: string, path: string)
    ensures match FirstMatch(routes, verb, path)
            case Some(route) => route in routes && Matches(route, verb, path)
            case None => forall route <- routes :: !Matches(route, verb, path)
  {
    if routes != [] {
      assert routes == [routes[0]] + routes[1..];
      FirstMatchFinds(routes[1..], verb, path);
    }
  }

  /**
   * First-match lookup over any list of table routes, in any order, finds the matching route if
   * it is in the list.
   */
  lemma LookupIgnoresOrder(routes: seq<Route>, route: Route, verb: string, path: string)
    requires forall r <- routes :: InTable(r)
    ensures route in routes && Matches(route, verb, path) ==> FirstMatch(routes, verb, path) == Some(route)
  {
    FirstMatchFinds(routes, verb, path);
    if FirstMatch(routes, verb, path).Some? {
      MatchIsUnique(FirstMatch(routes, verb, path).value, route, verb, path);
    }
  }

  /** A leaf handler's scan of its own routes, by path alone. */
  function LeafScan(routes: seq<Route>, path: string): Option<Route> {
    if routes == [] then None
    else if PathParams(Pattern(routes[0].segments), path).Some? then Some(routes[0])
    else LeafScan(routes[1..], path)
  }

  /** routeForRequest of a leaf handler: it checks the method once and then only paths. */
  function LeafRoute(own: seq<Route>, verb: string, wanted: string, path: string): Option<Route> {
    if verb != wanted then None else LeafScan(own, path)
  }

  lemma {:induction false} LeafScanIsFirstMatch(routes: seq<Route>, verb: string, path: string)
    requires forall route <- routes :: route.verb == verb
    ensures LeafScan(routes, path) == FirstMatch(routes, verb, path)
  {
    if routes != [] {
      LeafScanIsFirstMatch(routes[1..], verb, path);
    }
  }

  /** The dispatcher finds a route of the table that matches. */
  lemma TableFinds(route: Route, verb: string, path: string)
    requires InTable(route)
    ensures Matches(route, verb, path) ==> FirstMatch(TABLE, verb, path) == Some(route)
  {
    forall r <- TABLE ensures InTable(r) {
      var i :| 0 <= i < |TABLE| && TABLE[i] == r;
    }
    assert route in TABLE;
    LookupIgnoresOrder(TABLE, route, verb, path);
  }

  lemma AgreeWith(table: seq<Route>, own: seq<Route>, wanted: string, verb: string, path: string)
    requires forall route <- own ::
               route.verb == wanted && (Matches(route, verb, path) ==> FirstMatch(table, verb, path) == Some(route))
    ensures var dispatched := FirstMatch(table, verb, path);
            var mine := if dispatched.Some? && dispatched.value in own then dispatched else None;
            FirstMatch(own, verb, path) == mine && LeafRoute(own, verb, wanted, path) == mine
  {
    FirstMatchFinds(own, verb, path);
    FirstMatchFinds(table, verb, path);
    if verb == wanted {
      LeafScanIsFirstMatch(own, verb, path);
    }
  }

  /**
   * For every request, a handler that owns some routes of one method sees exactly what the dispatcher
   * decided: its authorization gate and its leaf both find the dispatched route when it is one of
   * theirs, and both find nothing otherwise.
   */
  lemma DispatcherGateAndLeafAgree(own: seq<Route>, wanted: string, verb: string, path: string)
    requires forall route <- own :: InTable(route) && route.verb == wanted
    ensures var dispatched := FirstMatch(TABLE, verb, path);
            var mine := if dispatched.Some? && dispatched.value in own then dispatched else None;
            FirstMatch(own, verb, path) == mine && LeafRoute(own, verb, wanted, path) == mine
  {
    forall route <- own ensures Matches(route, verb, path) ==> FirstMatch(TABLE, verb, path) == Some(route) {
      TableFinds(route, verb, path);
    }
    AgreeWith(TABLE, own, wanted, verb, path);
  }

  const LIFECYCLE: seq<Route> := [ARCHIVE_REPO, RESTORE_ARCHIVED_REPO, DELETE_REPO, RESTORE_TOMBSTONED_REPO, PURGE_REPO]

  lemma LifecycleInTable(k: nat)
    requires k < 5
    ensures LIFECYCLE[k] == TABLE[9 + k] && InTable(LIFECYCLE[k]) && LIFECYCLE[k].verb == "POST"
  {
    assert TABLE[9 + k] == LIFECYCLE[k];
  }

  /** The repo lifecycle handler owns five POST routes of the table, so the agreement holds for it. */
  lemma LifecycleLookupsAgree(verb: string, path: string)
    ensures var dispatched := FirstMatch(TABLE, verb, path);
            var mine := if dispatched.Some? && dispatched.value in LIFECYCLE then dispatched else None;
            FirstMatch(LIFECYCLE, verb, path) == mine && LeafRoute(LIFECYCLE, verb, "POST", path) == mine
  {
    forall route <- LIFECYCLE ensures InTable(route) && route.verb == "POST" {
      var k: nat :| k < |LIFECYCLE| && LIFECYCLE[k] == route;
      LifecycleInTable(k);
    }
    DispatcherGateAndLeafAgree(LIFECYCLE, "POST", verb, path);
  }
}
