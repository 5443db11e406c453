/** The request router and the formatter of endpoint addresses. */
module Router {
  import opened Results
  import opened Strings

  // ----- Matching

  /** A wildcard stands for any one segment, but not in the path "/". */
  predicate PartMatches(part: string, segment: string, pathLength: nat) {
    (part == "*" && pathLength > 1) || part == segment
  }

  /** matchPath on the parts of a pattern and the segments of a path. */
  predicate PartsMatch(reserved: set<string>, parts: seq<string>, segments: seq<string>, pathLength: nat)
    requires |parts| >= 2 && |segments| >= 2
  {
    && |parts| == |segments|
    && !(parts[1] == "*" && segments[1] in reserved)
    && forall i :: 0 <= i < |parts| ==> PartMatches(parts[i], segments[i], pathLength)
  }

  lemma {:induction false} SlashSplits(s: string)
    ensures '/' in s <==> |Split(s, '/')| >= 2
  {
    if s == "" {
    } else {
      SlashSplits(s[1..]);
    }
  }

  predicate Matches(reserved: set<string>, pattern: string, path: string)
    requires '/' in pattern && '/' in path
  {
    SlashSplits(pattern);
    SlashSplits(path);
    PartsMatch(reserved, Split(pattern, '/'), Split(path, '/'), |path|)
  }

  // ----- Separated patterns

  predicate DifferAt(a: seq<string>, b: seq<string>, i: nat) {
    i < |a| && i < |b| && a[i] != "*" && b[i] != "*" && a[i] != b[i]
  }

  /** The patterns differ in length or in a position where both have a literal. */
  ghost predicate Separated(a: seq<string>, b: seq<string>) {
    |a| != |b| || exists i: nat :: DifferAt(a, b, i)
  }

  /** Separated patterns have no path in common. */
  lemma SeparatedNeverBoth(reserved: set<string>, a: seq<string>, b: seq<string>, segments: seq<string>, pathLength: nat)
    requires |a| >= 2 && |b| >= 2 && |segments| >= 2
    ensures Separated(a, b) ==>
              !(PartsMatch(reserved, a, segments, pathLength) && PartsMatch(reserved, b, segments, pathLength))
  {
  }

  /** A path that fits both of two patterns that are not separated. */
  function Common(a: seq<string>, b: seq<string>): seq<string>
    requires |a| == |b|
  {
    seq(|a|, i requires 0 <= i < |a| => if a[i] != "*" then a[i] else if b[i] != "*" then b[i] else "x")
  }

  /** Two patterns that begin with a literal have a path in common exactly if they are not
      separated. */
  lemma SeparatedIffDisjoint(reserved: set<string>, a: seq<string>, b: seq<string>, pathLength: nat)
    requires |a| >= 2 && |b| >= 2 && a[1] != "*" && b[1] != "*" && pathLength > 1
    ensures Separated(a, b) <==>
            forall segments: seq<string> :: |segments| >= 2 ==>
              !(PartsMatch(reserved, a, segments, pathLength) && PartsMatch(reserved, b, segments, pathLength))
  {
    if Separated(a, b) {
      forall segments: seq<string> | |segments| >= 2
        ensures !(PartsMatch(reserved, a, segments, pathLength) && PartsMatch(reserved, b, segments, pathLength))
      {
        SeparatedNeverBoth(reserved, a, b, segments, pathLength);
      }
    } else {
      var segments := Common(a, b);
      forall i: nat | i < |a|
        ensures PartMatches(a[i], segments[i], pathLength) && PartMatches(b[i], segments[i], pathLength)
      {
        assert !DifferAt(a, b, i);
      }
      assert PartsMatch(reserved, a, segments, pathLength) && PartsMatch(reserved, b, segments, pathLength);
    }
  }

  // ----- The router

  datatype Route = Route(verb: string, path: string)

  datatype RouteDef = RouteDef(methods: set<string>, path: string, handler: nat)

  /** The paths of a definition: with an optional segment left out, and as a wildcard. */
  function Paths(path: string): seq<string> {
    if Contains(path, "/?") then [ReplaceFirst(path, "/?", ""), ReplaceFirst(path, "/?", "/*")] else [path]
  }

  predicate IsRooted(def: RouteDef) {
    forall k :: 0 <= k < |Paths(def.path)| ==> '/' in Paths(def.path)[k]
  }

  /** The route comes from the definition. */
  predicate Defines(def: RouteDef, r: Route) {
    r.verb in def.methods && r.path in Paths(def.path)
  }

  /** The literal first segments of these paths. */
  function ReservedIn(paths: seq<string>): set<string>
    requires forall k :: 0 <= k < |paths| ==> '/' in paths[k]
  {
    if paths == [] then {} else ReservedIn(paths[..|paths| - 1]) + NewlyReserved(paths[|paths| - 1])
  }

  /** The names that the definitions reserve. */
  function ReservedBy(defs: seq<RouteDef>): set<string>
    requires forall k :: 0 <= k < |defs| ==> IsRooted(defs[k])
  {
    if defs == [] then {}
    else
      var def := defs[|defs| - 1];
      assert IsRooted(def);
      ReservedBy(defs[..|defs| - 1]) + if def.methods == {} then {} else ReservedIn(Paths(def.path))
  }

  /** The handler that the last definition of a route gives it. */
  function HandlerOf(defs: seq<RouteDef>, r: Route): Option<nat> {
    if defs == [] then None
    else if Defines(defs[|defs| - 1], r) then Some(defs[|defs| - 1].handler)
    else HandlerOf(defs[..|defs| - 1], r)
  }

  /** A route gets the handler of the last definition that leads to it. */
  lemma {:induction false} LastDefinitionWins(defs: seq<RouteDef>, r: Route, i: nat)
    requires i < |defs| && Defines(defs[i], r) && forall j :: i < j < |defs| ==> !Defines(defs[j], r)
    ensures HandlerOf(defs, r) == Some(defs[i].handler)
  {
    hide Defines;
    if i == |defs| - 1 {
    } else {
      assert !Defines(defs[|defs| - 1], r);
      LastDefinitionWins(defs[..|defs| - 1], r, i);
    }
  }

  /** A route to which no definition leads has none. */
  lemma {:induction false} UndefinedHasNone(defs: seq<RouteDef>, r: Route)
    requires forall i :: 0 <= i < |defs| ==> !Defines(defs[i], r)
    ensures HandlerOf(defs, r) == None
  {
    hide Defines;
    if defs == [] {
    } else {
      UndefinedHasNone(defs[..|defs| - 1], r);
    }
  }

  /** A name is reserved exactly if it is the first segment of a path of some definition with methods, and
      neither empty nor a wildcard. */
  lemma {:induction false} ReservedIff(defs: seq<RouteDef>, name: string)
    requires forall k :: 0 <= k < |defs| ==> IsRooted(defs[k])
    ensures name in ReservedBy(defs) <==>
              && name != "" && name != "*"
              && exists k, i :: 0 <= k < |defs| && defs[k].methods != {} && 0 <= i < |Paths(defs[k].path)|
                                && IsFirst(name, Paths(defs[k].path)[i])
  {
    if defs == [] {
    } else {
      var n := |defs| - 1;
      ReservedIff(defs[..n], name);
      assert IsRooted(defs[n]);
      ReservedInIff(Paths(defs[n].path), name);
      hide IsFirst, Paths, IsRooted;
      assert forall k :: 0 <= k < n ==> defs[..n][k] == defs[k];
    }
  }

  predicate IsFirst(name: string, path: string) {
    |Split(path, '/')| >= 2 && Split(path, '/')[1] == name
  }

  lemma {:induction false} ReservedInIff(paths: seq<string>, name: string)
    requires forall k :: 0 <= k < |paths| ==> '/' in paths[k]
    ensures name in ReservedIn(paths) <==>
              name != "" && name != "*" && exists i :: 0 <= i < |paths| && IsFirst(name, paths[i])
  {
    if paths == [] {
    } else {
      var n := |paths| - 1;
      ReservedInIff(paths[..n], name);
      SlashSplits(paths[n]);
      assert forall k :: 0 <= k < n ==> paths[..n][k] == paths[k];
    }
  }

  class Router {
    var routes: map<Route, nat>
    var reserved: seq<string>

    ghost predicate Valid()
      reads this
    {
      forall r :: r in routes ==> '/' in r.path
    }

    function Reserved(): set<string>
      reads this
    {
      set s | s in reserved
    }

    constructor ()
      ensures routes == map[] && reserved == [] && Valid()
    {
      routes, reserved := map[], [];
    }

    method AddRoute(verb: string, path: string, handler: nat)
      requires Valid() && '/' in path
      modifies this
      ensures Valid() && routes == old(routes)[Route(verb, path) := handler]
      ensures Reserved() == old(Reserved()) + NewlyReserved(path)
    {
      SlashSplits(path);
      routes := routes[Route(verb, path) := handler];
      var endpoint := Split(path, '/')[1];
      if |endpoint| > 0 && endpoint != "*" {
        reserved := reserved + [endpoint];
      }
    }

    /** One definition: its routes for all of its methods replace older ones. */
    method AddRouteDef(def: RouteDef)
      requires Valid() && IsRooted(def)
      modifies this
      ensures Valid()
      ensures forall r :: r in routes <==> r in old(routes) || Defines(def, r)
      ensures forall r :: r in routes ==> routes[r] == if Defines(def, r) then def.handler else old(routes)[r]
      ensures Reserved() == old(Reserved()) + if def.methods == {} then {} else ReservedIn(Paths(def.path))
    {
      hide Paths, ReservedIn;
      var methods := def.methods;
      var paths := Paths(def.path);
      while methods != {}
        invariant methods <= def.methods && Valid()
        invariant forall r :: r in routes <==> r in old(routes) || (Defines(def, r) && r.verb !in methods)
        invariant forall r :: r in routes ==>
                                routes[r] == if Defines(def, r) && r.verb !in methods then def.handler else old(routes)[r]
        invariant Reserved() == old(Reserved()) + if methods == def.methods then {} else ReservedIn(paths)
        decreases |methods|
      {
        var m :| m in methods;
        methods := methods - {m};
        AddPaths(m, paths, def.handler);
      }
    }

    method AddPaths(verb: string, paths: seq<string>, handler: nat)
      requires Valid() && forall k :: 0 <= k < |paths| ==> '/' in paths[k]
      modifies this
      ensures Valid()
      ensures forall r :: r in routes <==> r in old(routes) || (r.verb == verb && r.path in paths)
      ensures forall r :: r in routes ==> routes[r] == if r.verb == verb && r.path in paths then handler else old(routes)[r]
      ensures Reserved() == old(Reserved()) + ReservedIn(paths)
    {
      for k := 0 to |paths|
        invariant Valid()
        invariant forall r :: r in routes <==> r in old(routes) || (r.verb == verb && r.path in paths[..k])
        invariant forall r :: r in routes ==>
                                routes[r] == if r.verb == verb && r.path in paths[..k] then handler else old(routes)[r]
        invariant Reserved() == old(Reserved()) + ReservedIn(paths[..k])
      {
        assert paths[..k + 1] == paths[..k] + [paths[k]];
        AddRoute(verb, paths[k], handler);
      }
      assert paths[..|paths|] == paths;
    }

    method AddRoutes(defs: seq<RouteDef>)
      requires Valid() && forall k :: 0 <= k < |defs| ==> IsRooted(defs[k])
      modifies this
      ensures Valid()
      ensures forall r :: r in routes <==> r in old(routes) || HandlerOf(defs, r).Some?
      ensures forall r :: r in routes ==>
                            routes[r] == if HandlerOf(defs, r).Some? then HandlerOf(defs, r).value else old(routes)[r]
      ensures Reserved() == old(Reserved()) + ReservedBy(defs)
    {
      for k := 0 to |defs|
        invariant Valid() && Reserved() == old(Reserved()) + ReservedBy(defs[..k])
        invariant forall r :: r in routes <==> r in old(routes) || HandlerOf(defs[..k], r).Some?
        invariant forall r :: r in routes ==>
                                routes[r] == if HandlerOf(defs[..k], r).Some? then HandlerOf(defs[..k], r).value
                                             else old(routes)[r]
      {
        assert defs[..k + 1][..k] == defs[..k];
        AddRouteDef(defs[k]);
      }
      assert defs[..|defs|] == defs;
    }

    /** The handler of some matching route, in whatever order the map lists them. */
    method ServeHTTP(verb: string, path: string) returns (handler: Option<nat>)
      requires Valid() && '/' in path
      ensures handler.None? <==> forall r :: r in routes ==> !IsFor(Reserved(), r, verb, path)
      ensures handler.Some? ==> exists r :: r in routes && IsFor(Reserved(), r, verb, path) && handler == Some(routes[r])
      ensures AllSeparated(routes.Keys) ==>
                forall r :: r in routes && IsFor(Reserved(), r, verb, path) ==> handler == Some(routes[r])
    {
      var rest := routes.Keys;
      var names := Reserved();
      while rest != {}
        invariant rest <= routes.Keys
        invariant forall r :: r in routes && r !in rest ==> !IsFor(names, r, verb, path)
        decreases |rest|
      {
        var el :| el in rest;
        rest := rest - {el};
        if Matches(names, el.path, path) && el.verb == verb {
          if AllSeparated(routes.Keys) {
            OrderDoesNotMatter(routes.Keys, names, verb, path, el);
          }
          return Some(routes[el]);
        }
      }
      handler := None;
    }
  }

  function NewlyReserved(path: string): set<string>
    requires '/' in path
  {
    SlashSplits(path);
    var endpoint := Split(path, '/')[1];
    if endpoint != "" && endpoint != "*" then {endpoint} else {}
  }

  predicate IsFor(reserved: set<string>, r: Route, verb: string, path: string)
    requires '/' in path
  {
    r.verb == verb && '/' in r.path && Matches(reserved, r.path, path)
  }

  ghost predicate AllSeparated(routes: set<Route>) {
    forall r, q :: r in routes && q in routes && r != q && r.verb == q.verb ==>
                     Separated(Split(r.path, '/'), Split(q.path, '/'))
  }

  /** If the patterns of each method are separated, at most one route is for a request. */
  lemma OrderDoesNotMatter(routes: set<Route>, reserved: set<string>, verb: string, path: string, r: Route)
    requires '/' in path && AllSeparated(routes) && r in routes && IsFor(reserved, r, verb, path)
    ensures forall q :: q in routes && IsFor(reserved, q, verb, path) ==> q == r
  {
  }

  // ----- Format

  method Format(endpoint: string, server: string, args: seq<string>) returns (url: string)
    ensures url == Formatted(endpoint, server, args)
  {
    var s := endpoint;
    for k := 0 to |args|
      invariant s == Replaced(endpoint, args[..k])
    {
      assert args[..k + 1][..k] == args[..k];
      s := ReplaceFirst(s, "*", args[k]);
    }
    assert args[..|args|] == args;
    s := ReplaceAll(s, "*", "");
    url := TrimSuffix(server, "/") + "/" + TrimPrefix(s, "/");
  }

  function Formatted(endpoint: string, server: string, args: seq<string>): string {
    TrimSuffix(server, "/") + "/" + TrimPrefix(ReplaceAll(Replaced(endpoint, args), "*", ""), "/")
  }

  function Replaced(s: string, args: seq<string>): string {
    if args == [] then s else ReplaceFirst(Replaced(s, args[..|args| - 1]), "*", args[|args| - 1])
  }

  /** A wildcard or a literal, and in one segment. */
  predicate IsPart(part: string) {
    '/' !in part && (part == "*" || '*' !in part)
  }

  /** The parts of an endpoint, which begins with a slash. */
  predicate IsEndpoint(parts: seq<string>) {
    |parts| >= 2 && parts[0] == "" && forall k :: 0 <= k < |parts| ==> IsPart(parts[k])
  }

  predicate IsArgument(arg: string) {
    '/' !in arg && '*' !in arg
  }

  /** The parts with the first wildcards replaced by the arguments. */
  function Fill(parts: seq<string>, args: seq<string>): (r: seq<string>)
    ensures |r| == |parts|
  {
    if parts == [] then []
    else if parts[0] == "*" && args != [] then [args[0]] + Fill(parts[1..], args[1..])
    else [parts[0]] + Fill(parts[1..], args)
  }

  /** Wildcards that have got no argument become empty. */
  function Blank(parts: seq<string>): (r: seq<string>)
    ensures |r| == |parts|
  {
    if parts == [] then [] else [if parts[0] == "*" then "" else parts[0]] + Blank(parts[1..])
  }

  /** The number of wildcards among the first i parts. */
  function Wildcards(parts: seq<string>, i: nat): nat
    requires i <= |parts|
  {
    if i == 0 then 0 else (if parts[0] == "*" then 1 else 0) + Wildcards(parts[1..], i - 1)
  }

  /** What stands in segment i: the argument that belongs to the wildcard there, or the literal. */
  lemma {:induction false} FilledAt(parts: seq<string>, args: seq<string>, i: nat)
    requires i < |parts| && forall k :: 0 <= k < |args| ==> IsArgument(args[k])
    ensures var w := Wildcards(parts, i);
            Blank(Fill(parts, args))[i] == if parts[i] != "*" then parts[i] else if w < |args| then args[w] else ""
  {
    if i > 0 {
      FilledAt(parts[1..], if parts[0] == "*" && args != [] then args[1..] else args, i - 1);
    } else if parts[0] == "*" && args != [] {
      assert args[0] != "*";
    }
  }

  lemma {:induction false} FillNone(parts: seq<string>)
    ensures Fill(parts, []) == parts
  {
    if parts == [] {
    } else {
      FillNone(parts[1..]);
    }
  }

  function FillFirst(parts: seq<string>, arg: string): seq<string> {
    if parts == [] then []
    else if parts[0] == "*" then [arg] + parts[1..]
    else [parts[0]] + FillFirst(parts[1..], arg)
  }

  lemma {:induction false} FillOneMore(parts: seq<string>, args: seq<string>, arg: string)
    requires forall k :: 0 <= k < |args| ==> IsArgument(args[k])
    ensures FillFirst(Fill(parts, args), arg) == Fill(parts, args + [arg])
  {
    if parts == [] {
    } else {
      if parts[0] == "*" && args != [] {
        FillOneMore(parts[1..], args[1..], arg);
        assert (args + [arg])[1..] == args[1..] + [arg] && args[0] != "*";
      } else if parts[0] == "*" {
        FillNone(parts);
        FillNone(parts[1..]);
        assert args + [arg] == [arg];
      } else {
        FillOneMore(parts[1..], args, arg);
      }
    }
  }

  lemma {:induction false} ReplaceFirstAfter(a: string, b: string, from: char, to: string)
    requires from !in a
    ensures ReplaceFirst(a + b, [from], to) == a + ReplaceFirst(b, [from], to)
  {
    if a == "" {
      assert a + b == b;
    } else {
      ReplaceFirstAfter(a[1..], b, from, to);
      assert (a + b)[1..] == a[1..] + b && (a + b)[..1] == [a[0]];
    }
  }

  lemma {:induction false} JoinReplaceFirst(parts: seq<string>, arg: string)
    requires forall k :: 0 <= k < |parts| ==> IsPart(parts[k])
    ensures ReplaceFirst(Join(parts, '/'), "*", arg) == Join(FillFirst(parts, arg), '/')
  {
    if parts == [] {
    } else {
      var rest := if |parts| == 1 then "" else ['/'] + Join(parts[1..], '/');
      assert Join(parts, '/') == parts[0] + rest;
      if parts[0] == "*" {
        ReplaceWildcard(rest, arg);
        assert |parts| > 1 ==> FillFirst(parts, arg)[1..] == parts[1..];
      } else {
        ReplaceFirstAfter(parts[0], rest, '*', arg);
        if |parts| > 1 {
          JoinReplaceFirst(parts[1..], arg);
          ReplaceFirstAfter("/", Join(parts[1..], '/'), '*', arg);
          FillFirstSize(parts[1..], arg);
          JoinCons(parts[0], FillFirst(parts[1..], arg));
          assert rest == "/" + Join(parts[1..], '/');
        }
      }
    }
  }

  lemma ReplaceWildcard(rest: string, arg: string)
    ensures ReplaceFirst("*" + rest, "*", arg) == arg + rest
  {
  }

  lemma JoinCons(part: string, parts: seq<string>)
    requires parts != []
    ensures Join([part] + parts, '/') == part + ("/" + Join(parts, '/'))
  {
  }

  lemma {:induction false} FillFirstSize(parts: seq<string>, arg: string)
    ensures |FillFirst(parts, arg)| == |parts|
  {
    if parts == [] {
    } else {
      FillFirstSize(parts[1..], arg);
    }
  }

  lemma ReplaceAllOfPart(part: string)
    requires IsPart(part)
    ensures ReplaceAll(part, "*", "") == if part == "*" then "" else part
  {
    if part == "*" {
      assert part[1..] == "";
    } else {
      ReplaceAllNone(part, '*', "");
    }
  }

  lemma {:induction false} JoinReplaceAll(parts: seq<string>)
    requires forall k :: 0 <= k < |parts| ==> IsPart(parts[k])
    ensures ReplaceAll(Join(parts, '/'), "*", "") == Join(Blank(parts), '/')
  {
    if parts == [] {
    } else {
      ReplaceAllOfPart(parts[0]);
      if |parts| > 1 {
        JoinReplaceAll(parts[1..]);
        ReplaceAllConcat(parts[0] + "/", Join(parts[1..], '/'), '*', "");
        ReplaceAllConcat(parts[0], "/", '*', "");
        ReplaceAllNone("/", '*', "");
      }
    }
  }

  lemma {:induction false} FillIsParts(parts: seq<string>, args: seq<string>)
    requires forall k :: 0 <= k < |parts| ==> IsPart(parts[k])
    requires forall k :: 0 <= k < |args| ==> IsArgument(args[k])
    ensures forall k :: 0 <= k < |parts| ==> IsPart(Fill(parts, args)[k])
  {
    if parts == [] {
    } else {
      FillIsParts(parts[1..], if parts[0] == "*" && args != [] then args[1..] else args);
    }
  }

  lemma {:induction false} ReplacedIsFill(parts: seq<string>, args: seq<string>)
    requires forall k :: 0 <= k < |parts| ==> IsPart(parts[k])
    requires forall k :: 0 <= k < |args| ==> IsArgument(args[k])
    ensures Replaced(Join(parts, '/'), args) == Join(Fill(parts, args), '/')
    decreases |args|
  {
    if args == [] {
      FillNone(parts);
    } else {
      var front := args[..|args| - 1];
      ReplacedIsFill(parts, front);
      FillIsParts(parts, front);
      JoinReplaceFirst(Fill(parts, front), args[|args| - 1]);
      FillOneMore(parts, front, args[|args| - 1]);
      assert front + [args[|args| - 1]] == args;
    }
  }

  /** The address is that of the server followed by the path that FilledAt describes. */
  lemma FormatFills(parts: seq<string>, server: string, args: seq<string>)
    requires IsEndpoint(parts) && forall k :: 0 <= k < |args| ==> IsArgument(args[k])
    ensures var segments := Blank(Fill(parts, args));
            && Formatted(Join(parts, '/'), server, args) == TrimSuffix(server, "/") + Join(segments, '/')
            && Split(Join(segments, '/'), '/') == segments
  {
    var segments := Blank(Fill(parts, args));
    ReplacedIsFill(parts, args);
    FillIsParts(parts, args);
    JoinReplaceAll(Fill(parts, args));
    FilledAt(parts, args, 0);
    assert Join(segments, '/') == "" + ['/'] + Join(segments[1..], '/') == "/" + Join(segments[1..], '/');
    assert TrimPrefix(Join(segments, '/'), "/") == Join(segments[1..], '/');
    forall k | 0 <= k < |segments|
      ensures '/' !in segments[k]
    {
      FilledAt(parts, args, k);
    }
    SplitJoin(segments, '/');
    assert TrimSuffix(server, "/") + "/" + Join(segments[1..], '/') == TrimSuffix(server, "/") + ("/" + Join(segments[1..], '/'));
  }

  /** The path that Format makes of an endpoint matches the pattern of that endpoint, unless its
      first segment is a wildcard filled with a reserved name, or it is a wildcard alone and the
      path is "/". */
  lemma FormatMatches(reserved: set<string>, parts: seq<string>, args: seq<string>)
    requires IsEndpoint(parts) && forall k :: 0 <= k < |args| ==> IsArgument(args[k])
    ensures var segments := Blank(Fill(parts, args));
            PartsMatch(reserved, parts, segments, |Join(segments, '/')|) <==>
              !(parts[1] == "*" && (segments[1] in reserved || Join(segments, '/') == "/"))
  {
    var segments := Blank(Fill(parts, args));
    forall i | 0 <= i < |parts|
      ensures parts[i] != "*" ==> segments[i] == parts[i]
      ensures parts[i] == "*" ==> segments[i] != "*"
    {
      FilledAt(parts, args, i);
      assert parts[i] == "*" && Wildcards(parts, i) < |args| ==> IsArgument(args[Wildcards(parts, i)]);
    }
    assert Join(segments, '/') == "" + ['/'] + Join(segments[1..], '/');
    if |parts| > 2 {
      assert Join(segments[1..], '/') == segments[1] + ['/'] + Join(segments[1..][1..], '/');
    }
  }
}
