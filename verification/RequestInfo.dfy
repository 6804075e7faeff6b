/** How a request's method and URL path become a `RequestInfo`.  Decoding the query is
left open: whether it asks for a watch is a parameter, and there is no field selector. */
module RequestInfos {
  import opened Options
  import opened Strings

  datatype Request = Request(httpMethod: string, path: string, watch: bool)

  /** API prefixes, without slashes; those without group are among them. */
  datatype Factory = Factory(apiPrefixes: set<string>, grouplessAPIPrefixes: set<string>)

  datatype RequestInfo = RequestInfo(
    isResourceRequest: bool,
    path: string,
    verb: string,
    apiPrefix: string,
    apiGroup: string,
    apiVersion: string,
    namespace: string,
    resource: string,
    subresource: string,
    name: string,
    parts: seq<string>)

  const SPECIAL_VERBS := {"proxy", "watch"}
  const SPECIAL_VERBS_NO_SUBRESOURCES := {"proxy"}
  const NAMESPACE_SUBRESOURCES := {"status", "finalize"}

  function ToLower(s: string): string {
    seq(|s|, i requires 0 <= i < |s| => if 'A' <= s[i] <= 'Z' then s[i] - 'A' + 'a' else s[i])
  }

  predicate IsSlash(c: char) {
    c == '/'
  }

  function SplitPath(path: string): seq<string> {
    var p := Trim(path, IsSlash);
    if p == "" then [] else Split(p, '/')
  }

  /** The verb for an HTTP method, before it is known whether there is a name. */
  function MethodVerb(httpMethod: string): string {
    if httpMethod == "POST" then "create"
    else if httpMethod == "GET" || httpMethod == "HEAD" then "get"
    else if httpMethod == "PUT" then "update"
    else if httpMethod == "PATCH" then "patch"
    else if httpMethod == "DELETE" then "delete"
    else ""
  }

  // ----- the parser

  /** The information, and false if the kind and namespace cannot be determined. */
  method NewRequestInfo(f: Factory, req: Request) returns (info: RequestInfo, ok: bool)
    ensures (info, ok) == Interpret(f, req, SplitPath(req.path))
  {
    info := NonResource(req);
    ok := true;
    var currentParts := SplitPath(req.path);
    if |currentParts| < 3 {
      return;
    }
    if currentParts[0] !in f.apiPrefixes {
      return;
    }
    info := info.(apiPrefix := currentParts[0]);
    currentParts := currentParts[1..];
    if info.apiPrefix !in f.grouplessAPIPrefixes {
      if |currentParts| < 3 {
        return;
      }
      info := info.(apiGroup := currentParts[0]);
      currentParts := currentParts[1..];
    }
    ghost var u;
    info, ok, u := ParseVersion(req, info, currentParts);
  }

  /** The version, then a special verb or the verb of the method.  Unless a special verb is
      all that follows the version, the parts are those of a URL, and its meaning is found. */
  method ParseVersion(req: Request, before: RequestInfo, parts: seq<string>)
    returns (info: RequestInfo, ok: bool, ghost u: URL)
    requires |parts| >= 2 && before == NonResource(req).(apiPrefix := before.apiPrefix, apiGroup := before.apiGroup)
    ensures (info, ok) == InterpretVersion(req, before, parts)
    ensures !ok <==> |parts| == 2 && parts[1] in SPECIAL_VERBS
    ensures ok ==> VersionOk(u) && FromVersion(u) == parts && info == Meaning(u, req)
  {
    ghost var group := if before.apiGroup == "" then None else Some(before.apiGroup);
    if |parts| > 2 || parts[1] !in SPECIAL_VERBS {
      u := VersionExplained(before.apiPrefix, group, parts);
      VersionInterpreted(u, req, before);
    } else {
      u := *;
    }
    var currentParts := parts;
    info := before.(isResourceRequest := true, apiVersion := currentParts[0]);
    currentParts := currentParts[1..];
    if currentParts[0] in SPECIAL_VERBS {
      if |currentParts| < 2 {
        ok := false;
        return;
      }
      info := info.(verb := currentParts[0]);
      currentParts := currentParts[1..];
    } else {
      info := info.(verb := MethodVerb(req.httpMethod));
    }
    info := ParseTarget(req, info, currentParts);
    ok := true;
  }

  /** The namespace, with the parts made relative to the resource. */
  method ParseTarget(req: Request, before: RequestInfo, parts: seq<string>) returns (info: RequestInfo)
    requires parts != [] && before.name == before.subresource == before.namespace == ""
    ensures info == InterpretTarget(req, before, parts)
  {
    var currentParts := parts;
    info := before;
    if currentParts[0] == "namespaces" {
      if |currentParts| > 1 {
        info := info.(namespace := currentParts[1]);
        if |currentParts| > 2 && currentParts[2] !in NAMESPACE_SUBRESOURCES {
          currentParts := currentParts[2..];
        }
      }
    } else {
      info := info.(namespace := "");
    }
    info := info.(parts := currentParts);
    info := ParseParts(req, info);
  }

  /** resource/resourceName/subresource, and the verb that depends on the name. */
  method ParseParts(req: Request, before: RequestInfo) returns (info: RequestInfo)
    requires before.parts != [] && before.name == before.subresource == ""
    ensures info == InterpretParts(req, before)
  {
    info := before;
    if |info.parts| >= 3 && info.verb !in SPECIAL_VERBS_NO_SUBRESOURCES {
      info := info.(subresource := info.parts[2]);
    }
    if |info.parts| >= 2 {
      info := info.(name := info.parts[1]);
    }
    if |info.parts| >= 1 {
      info := info.(resource := info.parts[0]);
    }
    if |info.name| == 0 && info.verb == "get" {
      info := info.(verb := if req.watch then "watch" else "list");
    }
    if |info.name| == 0 && info.verb == "delete" {
      info := info.(verb := "deletecollection");
    }
  }

  function NonResource(req: Request): RequestInfo {
    RequestInfo(false, req.path, ToLower(req.httpMethod), "", "", "", "", "", "", "", [])
  }

  /** The same in terms of the segments of the path. */
  function Interpret(f: Factory, req: Request, segs: seq<string>): (RequestInfo, bool) {
    var info := NonResource(req);
    if |segs| < 3 || segs[0] !in f.apiPrefixes then (info, true)
    else
      var info := info.(apiPrefix := segs[0]);
      if segs[0] in f.grouplessAPIPrefixes then
        InterpretVersion(req, info, segs[1..])
      else if |segs| < 4 then (info, true)
      else InterpretVersion(req, info.(apiGroup := segs[1]), segs[2..])
  }

  function InterpretVersion(req: Request, info: RequestInfo, segs: seq<string>): (RequestInfo, bool)
    requires |segs| >= 2
  {
    var info := info.(isResourceRequest := true, apiVersion := segs[0]);
    if segs[1] !in SPECIAL_VERBS then
      (InterpretTarget(req, info.(verb := MethodVerb(req.httpMethod)), segs[1..]), true)
    else if |segs| < 3 then (info, false)
    else (InterpretTarget(req, info.(verb := segs[1]), segs[2..]), true)
  }

  /** Where the resource begins, relative to the namespace. */
  function ResourceParts(segs: seq<string>): (parts: seq<string>)
    requires segs != []
    ensures parts != []
  {
    if segs[0] == "namespaces" && |segs| > 2 && segs[2] !in NAMESPACE_SUBRESOURCES then segs[2..] else segs
  }

  function At(s: seq<string>, i: nat): string {
    if i < |s| then s[i] else ""
  }

  /** Without a name, reading and deleting are about the collection. */
  function CollectionVerb(verb: string, name: string, watch: bool): string {
    if name != "" then verb
    else if verb == "get" then if watch then "watch" else "list"
    else if verb == "delete" then "deletecollection"
    else verb
  }

  function InterpretTarget(req: Request, info: RequestInfo, segs: seq<string>): RequestInfo
    requires segs != []
  {
    var namespace := if segs[0] == "namespaces" then At(segs, 1) else "";
    InterpretParts(req, info.(namespace := namespace, parts := ResourceParts(segs)))
  }

  function InterpretParts(req: Request, info: RequestInfo): RequestInfo
    requires info.parts != []
  {
    info.(
      resource := info.parts[0],
      name := At(info.parts, 1),
      subresource := if info.verb in SPECIAL_VERBS_NO_SUBRESOURCES then "" else At(info.parts, 2),
      verb := CollectionVerb(info.verb, At(info.parts, 1), req.watch))
  }

  // ----- the grammar of resource URLs

  /** What a resource URL names: a resource, in a namespace or not, with the name, the
      subresource and whatever follows; or namespaces themselves. */
  datatype Target =
    | Resource(inNamespace: Option<string>, resource: string, tail: seq<string>)
    | AllNamespaces
    | OneNamespace(namespace: string, tail: seq<string>)

  datatype URL = URL(prefix: string, group: Option<string>, version: string, special: Option<string>, target: Target)

  function OptionSegment(o: Option<string>): seq<string> {
    if o.Some? then [o.value] else []
  }

  function TargetSegments(t: Target): (segs: seq<string>)
    ensures segs != []
  {
    match t
    case Resource(None, resource, tail) => [resource] + tail
    case Resource(Some(ns), resource, tail) => ["namespaces", ns, resource] + tail
    case AllNamespaces => ["namespaces"]
    case OneNamespace(ns, tail) => ["namespaces", ns] + tail
  }

  function FromVersion(u: URL): seq<string> {
    [u.version] + OptionSegment(u.special) + TargetSegments(u.target)
  }

  function Segments(u: URL): seq<string> {
    [u.prefix] + OptionSegment(u.group) + FromVersion(u)
  }

  lemma {:induction false} SegmentsFromVersion(u: URL)
    ensures var segs := Segments(u);
            if u.group.Some?
            then |segs| >= 4 && segs[0] == u.prefix && segs[1] == u.group.value && segs[2..] == FromVersion(u)
            else |segs| >= 3 && segs[0] == u.prefix && segs[1..] == FromVersion(u)
  {
  }

  function Render(u: URL): string {
    "/" + Join(Segments(u), '/')
  }

  /** Words that select another rule of the grammar cannot be used as names. */
  predicate TargetOk(t: Target) {
    match t
    case Resource(None, resource, _) => resource != "namespaces"
    case Resource(Some(_), resource, _) => resource !in NAMESPACE_SUBRESOURCES
    case AllNamespaces => true
    case OneNamespace(_, tail) => tail == [] || tail[0] in NAMESPACE_SUBRESOURCES
  }

  predicate VersionOk(u: URL) {
    && (u.special.Some? ==> u.special.value in SPECIAL_VERBS)
    && (u.special.None? ==> TargetSegments(u.target)[0] !in SPECIAL_VERBS)
    && TargetOk(u.target)
  }

  predicate Grammatical(f: Factory, u: URL) {
    && u.prefix in f.apiPrefixes && (u.group.Some? <==> u.prefix !in f.grouplessAPIPrefixes)
    && VersionOk(u)
  }

  ghost predicate SegmentsOk(segs: seq<string>) {
    forall i | 0 <= i < |segs| :: segs[i] != "" && Free(segs[i], '/')
  }

  /** The namespace, resource, name, subresource and parts that a target stands for. */
  function TargetNamespace(t: Target): string {
    match t
    case Resource(None, _, _) => ""
    case Resource(Some(ns), _, _) => ns
    case AllNamespaces => ""
    case OneNamespace(ns, _) => ns
  }

  function TargetParts(t: Target): (parts: seq<string>)
    ensures parts != []
  {
    match t
    case Resource(_, resource, tail) => [resource] + tail
    case AllNamespaces => ["namespaces"]
    case OneNamespace(ns, tail) => ["namespaces", ns] + tail
  }

  /** What a URL means. */
  function Meaning(u: URL, req: Request): RequestInfo {
    var verb := if u.special.Some? then u.special.value else MethodVerb(req.httpMethod);
    var parts := TargetParts(u.target);
    RequestInfo(
      isResourceRequest := true,
      path := req.path,
      verb := CollectionVerb(verb, At(parts, 1), req.watch),
      apiPrefix := u.prefix,
      apiGroup := if u.group.Some? then u.group.value else "",
      apiVersion := u.version,
      namespace := TargetNamespace(u.target),
      resource := parts[0],
      subresource := if verb == "proxy" then "" else At(parts, 2),
      name := At(parts, 1),
      parts := parts)
  }

  // ----- the parser inverts the grammar

  lemma {:induction false} TargetInterpreted(t: Target)
    requires TargetOk(t)
    ensures ResourceParts(TargetSegments(t)) == TargetParts(t)
    ensures (if TargetSegments(t)[0] == "namespaces" then At(TargetSegments(t), 1) else "") == TargetNamespace(t)
  {
  }

  lemma {:induction false} TargetMeaning(req: Request, info: RequestInfo, t: Target)
    requires TargetOk(t)
    ensures InterpretTarget(req, info, TargetSegments(t)) ==
            InterpretParts(req, info.(namespace := TargetNamespace(t), parts := TargetParts(t)))
  {
    TargetInterpreted(t);
  }

  lemma {:induction false} VersionInterpreted(u: URL, req: Request, info: RequestInfo)
    requires VersionOk(u)
    requires info == NonResource(req).(apiPrefix := u.prefix, apiGroup := if u.group.Some? then u.group.value else "")
    ensures InterpretVersion(req, info, FromVersion(u)) == (Meaning(u, req), true)
  {
    var segs, target := FromVersion(u), TargetSegments(u.target);
    var resource := info.(isResourceRequest := true, apiVersion := u.version);
    var verb := if u.special.Some? then u.special.value else MethodVerb(req.httpMethod);
    TargetMeaning(req, resource.(verb := verb), u.target);
    if u.special.Some? {
      assert segs[1] == u.special.value && segs[2..] == target;
    } else {
      assert segs[1] == target[0] && segs[1..] == target;
    }
  }

  lemma {:induction false} SegmentsInterpreted(f: Factory, u: URL, req: Request)
    requires Grammatical(f, u)
    ensures Interpret(f, req, Segments(u)) == (Meaning(u, req), true)
  {
    var segs := Segments(u);
    var info := NonResource(req).(apiPrefix := u.prefix, apiGroup := if u.group.Some? then u.group.value else "");
    VersionInterpreted(u, req, info);
    SegmentsFromVersion(u);
  }

  lemma {:induction false} SplitRendered(segs: seq<string>, slashes: nat)
    requires segs != [] && SegmentsOk(segs)
    ensures SplitPath("/" + Join(segs, '/') + seq(slashes, _ => '/')) == segs
  {
    var body := Join(segs, '/');
    JoinEnds(segs);
    TrimTrims(body, IsSlash);
    var tail := seq(slashes, _ => '/');
    assert ("/" + body + tail)[1..] == body + tail;
    TrimTail(body, slashes);
    assert TrimLeft("/" + body + tail, IsSlash) == body + tail;
    SplitJoin(segs, '/');
  }

  lemma {:induction false} JoinEnds(segs: seq<string>)
    requires segs != [] && SegmentsOk(segs)
    ensures Join(segs, '/') != "" && Trimmed(Join(segs, '/'), IsSlash)
  {
    assert segs[0] != "" && segs[0][0] in segs[0] && segs[0][|segs[0]| - 1] in segs[0];
    if |segs| > 1 {
      JoinEnds(segs[1..]);
    }
  }

  lemma {:induction false} TrimTail(body: string, slashes: nat)
    requires body != "" && Trimmed(body, IsSlash)
    ensures TrimRight(body + seq(slashes, _ => '/'), IsSlash) == body
  {
    var tail := seq(slashes, _ => '/');
    if slashes == 0 {
      assert body + tail == body;
    } else {
      assert (body + tail)[..|body + tail| - 1] == body + seq(slashes - 1, _ => '/');
      TrimTail(body, slashes - 1);
    }
  }

  /** Parsing inverts rendering, also when slashes follow. */
  lemma {:induction false} ParseRendered(f: Factory, u: URL, req: Request, slashes: nat)
    requires Grammatical(f, u) && SegmentsOk(Segments(u))
    requires req.path == Render(u) + seq(slashes, _ => '/')
    ensures Interpret(f, req, SplitPath(req.path)) == (Meaning(u, req), true)
  {
    SplitRendered(Segments(u), slashes);
    SegmentsInterpreted(f, u, req);
  }

  /** The target that segments stand for. */
  function TargetOf(segs: seq<string>): Target
    requires segs != []
  {
    if segs[0] != "namespaces" then Resource(None, segs[0], segs[1..])
    else if |segs| == 1 then AllNamespaces
    else if |segs| > 2 && segs[2] !in NAMESPACE_SUBRESOURCES then Resource(Some(segs[1]), segs[2], segs[3..])
    else OneNamespace(segs[1], segs[2..])
  }

  lemma {:induction false} TargetOfSegments(segs: seq<string>)
    requires segs != []
    ensures TargetOk(TargetOf(segs)) && TargetSegments(TargetOf(segs)) == segs
  {
  }

  /** Conversely, every resource request has a grammatical URL with the same segments,
      so nothing in its path is ignored. */
  lemma {:induction false} ResourceRequestExplained(f: Factory, req: Request, segs: seq<string>) returns (u: URL)
    requires Interpret(f, req, segs).1 && Interpret(f, req, segs).0.isResourceRequest
    ensures Grammatical(f, u) && Segments(u) == segs
    ensures Interpret(f, req, segs).0 == Meaning(u, req)
  {
    ResourceRequestExactly(f, req, segs);
    var group := if segs[0] in f.grouplessAPIPrefixes then None else Some(segs[1]);
    u := VersionExplained(segs[0], group, if group.Some? then segs[2..] else segs[1..]);
    SegmentsRestored(u, segs);
    SegmentsInterpreted(f, u, req);
  }

  lemma {:induction false} SegmentsRestored(u: URL, segs: seq<string>)
    requires |segs| >= 2 && u.prefix == segs[0]
    requires if u.group.Some? then u.group.value == segs[1] && FromVersion(u) == segs[2..]
             else FromVersion(u) == segs[1..]
    ensures Segments(u) == segs
  {
    if u.group.Some? {
      assert segs == [segs[0]] + [segs[1]] + segs[2..];
    } else {
      assert segs == [segs[0]] + segs[1..];
    }
  }

  lemma {:induction false} VersionExplained(prefix: string, group: Option<string>, segs: seq<string>) returns (u: URL)
    requires |segs| >= 2 && (segs[1] in SPECIAL_VERBS ==> |segs| >= 3)
    ensures u.prefix == prefix && u.group == group && FromVersion(u) == segs && VersionOk(u)
  {
    var special := if segs[1] in SPECIAL_VERBS then Some(segs[1]) else None;
    var target := if special.Some? then segs[2..] else segs[1..];
    TargetOfSegments(target);
    u := URL(prefix, group, segs[0], special, TargetOf(target));
  }

  /** The exact condition under which a path names a resource. */
  lemma {:induction false} ResourceRequestExactly(f: Factory, req: Request, segs: seq<string>)
    ensures var (info, ok) := Interpret(f, req, segs);
            && (info.isResourceRequest <==>
                  |segs| >= 3 && segs[0] in f.apiPrefixes && (segs[0] in f.grouplessAPIPrefixes || |segs| >= 4))
            && (!ok <==> info.isResourceRequest && segs[|segs| - 1] in SPECIAL_VERBS &&
                         |segs| == (if segs[0] in f.grouplessAPIPrefixes then 3 else 4))
  {
  }

  // ----- the parser by positions and words

  /** The segments of a path: between slashes, without those at the two ends. */
  lemma {:induction false} SplitPathExactly(path: string) returns (before: string, after: string)
    ensures path == before + Join(SplitPath(path), '/') + after && All(before, IsSlash) && All(after, IsSlash)
    ensures AllFree(SplitPath(path), '/')
    ensures SplitPath(path) != [] ==>
              SplitPath(path)[0] != "" && SplitPath(path)[|SplitPath(path)| - 1] != ""
  {
    before, after := TrimCuts(path, IsSlash);
    TrimTrims(path, IsSlash);
    var p := Trim(path, IsSlash);
    if p != "" {
      JoinSplit(p, '/');
      SplitIsFree(p, '/');
      SplitEnds(p);
    }
  }

  lemma {:induction false} SplitEnds(p: string)
    requires p != "" && p[0] != '/' && p[|p| - 1] != '/'
    ensures Split(p, '/')[0] != "" && Split(p, '/')[|Split(p, '/')| - 1] != ""
  {
    JoinSplit(p, '/');
    JoinLast(Split(p, '/'));
  }

  lemma {:induction false} JoinLast(parts: seq<string>)
    requires parts != []
    ensures parts[0] != "" ==> Join(parts, '/') != "" && Join(parts, '/')[0] == parts[0][0]
    ensures |parts| > 1 && parts[0] == "" ==> Join(parts, '/') != "" && Join(parts, '/')[0] == '/'
    ensures |parts| > 1 && parts[|parts| - 1] == "" ==>
              Join(parts, '/') != "" && Join(parts, '/')[|Join(parts, '/')| - 1] == '/'
  {
    if |parts| > 1 {
      JoinLast(parts[1..]);
      assert parts[1..][|parts| - 2] == parts[|parts| - 1];
      if |parts| == 2 && parts[1] == "" {
        assert Join(parts[1..], '/') == "";
        assert Join(parts, '/') == parts[0] + "/";
      }
    }
  }

  /** The verb that a method stands for, if a name follows or not. */
  ghost predicate MethodMeans(httpMethod: string, watch: bool, named: bool, verb: string) {
    && (httpMethod == "POST" ==> verb == "create")
    && (httpMethod == "PUT" ==> verb == "update")
    && (httpMethod == "PATCH" ==> verb == "patch")
    && (httpMethod == "GET" || httpMethod == "HEAD" ==>
          verb == if named then "get" else if watch then "watch" else "list")
    && (httpMethod == "DELETE" ==> verb == if named then "delete" else "deletecollection")
    && (httpMethod !in {"POST", "PUT", "PATCH", "GET", "HEAD", "DELETE"} ==> verb == "")
  }

  /** Where things are in the segments of a resource request: the version after the prefix and
      the group, then the verbs proxy and watch, a namespace, and the resource. */
  function VersionAt(f: Factory, segs: seq<string>): nat
    requires segs != []
  {
    if segs[0] in f.grouplessAPIPrefixes then 1 else 2
  }

  function TargetAt(f: Factory, segs: seq<string>): nat
    requires segs != []
  {
    var v := VersionAt(f, segs);
    if v + 1 < |segs| && (segs[v + 1] == "proxy" || segs[v + 1] == "watch") then v + 2 else v + 1
  }

  function ResourceAt(f: Factory, segs: seq<string>): nat
    requires segs != []
  {
    var t := TargetAt(f, segs);
    if t + 2 < |segs| && segs[t] == "namespaces" && segs[t + 2] != "status" && segs[t + 2] != "finalize" then t + 2
    else t
  }

  ghost predicate NamesResource(f: Factory, segs: seq<string>) {
    |segs| >= 3 && segs[0] in f.apiPrefixes && VersionAt(f, segs) + 2 <= |segs|
  }

  /** The information before the target is looked at. */
  function BeforeTarget(f: Factory, req: Request, segs: seq<string>): RequestInfo
    requires |segs| >= 3
  {
    var v := VersionAt(f, segs);
    NonResource(req).(
    isResourceRequest := true,
    apiPrefix := segs[0],
    apiGroup := if v == 2 then segs[1] else "",
    apiVersion := segs[v])
  }

  lemma {:induction false} ToTarget(f: Factory, req: Request, segs: seq<string>)
    requires NamesResource(f, segs)
    ensures var v, t, info := VersionAt(f, segs), TargetAt(f, segs), BeforeTarget(f, req, segs);
            Interpret(f, req, segs) ==
            if t >= |segs| then (info, false)
            else
              var verb := if t == v + 2 then segs[v + 1] else MethodVerb(req.httpMethod);
              (InterpretTarget(req, info.(verb := verb), segs[t..]), true)
  {
    var v, t := VersionAt(f, segs), TargetAt(f, segs);
    var from := segs[v..];
    assert from[0] == segs[v] && from[1] == segs[v + 1];
    if t == v + 1 {
      assert from[1..] == segs[t..];
    } else if t < |segs| {
      assert from[2..] == segs[t..];
    }
  }

  /** What stands where in the segments from the target on. */
  ghost predicate TargetFields(info: RequestInfo, segs: seq<string>, t: nat, r: nat, proxy: bool)
    requires t < |segs| && r < |segs|
  {
    && info.namespace == (if segs[t] == "namespaces" && t + 1 < |segs| then segs[t + 1] else "")
    && info.parts == segs[r..] && info.resource == segs[r]
    && info.name == (if r + 1 < |segs| then segs[r + 1] else "")
    && info.subresource == (if r + 2 < |segs| && !proxy then segs[r + 2] else "")
  }

  lemma {:induction false} TargetByPosition(f: Factory, req: Request, info: RequestInfo, segs: seq<string>)
    requires |segs| >= 3 && TargetAt(f, segs) < |segs|
    ensures TargetFields(InterpretTarget(req, info, segs[TargetAt(f, segs)..]), segs, TargetAt(f, segs),
                         ResourceAt(f, segs), info.verb == "proxy")
  {
    var t, r := TargetAt(f, segs), ResourceAt(f, segs);
    var target := segs[t..];
    if t + 2 < |segs| {
      assert target[2] == segs[t + 2] && target[2..] == segs[t + 2..];
    }
    assert ResourceParts(target) == segs[r..];
  }

  /** What every path with enough segments below an API prefix stands for, by positions. */
  lemma {:induction false} FieldsByPosition(f: Factory, req: Request, segs: seq<string>)
    requires NamesResource(f, segs)
    ensures var (info, ok) := Interpret(f, req, segs);
            var v, t, r := VersionAt(f, segs), TargetAt(f, segs), ResourceAt(f, segs);
            && info.isResourceRequest && info.path == req.path
            && info.apiPrefix == segs[0] && info.apiVersion == segs[v]
            && info.apiGroup == (if v == 2 then segs[1] else "")
            && (ok <==> t < |segs|)
            && (ok ==> TargetFields(info, segs, t, r, t == v + 2 && segs[v + 1] == "proxy"))
  {
    ToTarget(f, req, segs);
    var v, t := VersionAt(f, segs), TargetAt(f, segs);
    if t < |segs| {
      var verb := if t == v + 2 then segs[v + 1] else MethodVerb(req.httpMethod);
      TargetByPosition(f, req, BeforeTarget(f, req, segs).(verb := verb), segs);
    }
  }

  /** The verb of every resource request: proxy and watch if the path says so, and otherwise
      by the method. */
  lemma {:induction false} VerbByMethod(f: Factory, req: Request, segs: seq<string>)
    requires NamesResource(f, segs)
    ensures var (info, ok) := Interpret(f, req, segs);
            var v := VersionAt(f, segs);
            ok ==>
              && (segs[v + 1] == "proxy" ==> info.verb == "proxy")
              && (segs[v + 1] == "watch" ==> info.verb == "watch")
              && (segs[v + 1] != "proxy" && segs[v + 1] != "watch" ==>
                    MethodMeans(req.httpMethod, req.watch, info.name != "", info.verb))
  {
    ToTarget(f, req, segs);
  }

  /** Every other path: nothing but the path, the method in lower case, and the prefix if it
      is one. */
  lemma {:induction false} NonResourceExactly(f: Factory, req: Request, segs: seq<string>)
    requires |segs| < 3 || segs[0] !in f.apiPrefixes || VersionAt(f, segs) + 2 > |segs|
    ensures var (info, ok) := Interpret(f, req, segs);
            && ok && !info.isResourceRequest && info.path == req.path
            && |info.verb| == |req.httpMethod|
            && (forall i | 0 <= i < |info.verb| ::
                  var c := req.httpMethod[i];
                  info.verb[i] == if 'A' <= c <= 'Z' then (c as int + 32) as char else c)
            && info.apiPrefix == (if |segs| >= 3 && segs[0] in f.apiPrefixes then segs[0] else "")
            && info.apiGroup == info.apiVersion == info.namespace == ""
            && info.resource == info.subresource == info.name == "" && info.parts == []
  {
  }
}
