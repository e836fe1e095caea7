/** Which backend a request goes to, and whether it is turned away (CopyFrom, isRouteRestricted and findBackend,
    pkg/lb/httpfrontend.go). */
module Routing {
  import opened Options
  import opened Glob
  import opened NormalizePath

  /** A restriction as configured.  `network` is what its network, if there is one, says of the client's TCP address. */
  datatype Restriction = Restriction(network: Option<bool>, path: string, invert: bool, andAfter: bool)

  datatype Route<B> = Route(host: string, path: string, restrictions: seq<Restriction>, backend: B, backup: B)

  /** The options of a frontend.  The default and every other backend may be missing, which is a value of B. */
  datatype Opts<B> = Opts(routes: seq<Route<B>>, defaultBackend: B, defaultBackup: B)

  /** What the frontend keeps of a route: the compiled patterns and the restrictions with theirs. */
  datatype Compiled = Compiled(hostRgx: string, pathRgx: string, restrictions: seq<CompiledRestriction>)

  datatype CompiledRestriction = CompiledRestriction(network: Option<bool>, pathRgx: Option<string>, invert: bool, andAfter: bool)

  function OrStar(pattern: string): string {
    if pattern == "" then "*" else pattern
  }

  /** HTTPFrontendOptions.CopyFrom, for one restriction and one route; `lower` is strings.ToLower. */
  function CompileRestriction(r: Restriction, lower: string -> string): CompiledRestriction {
    CompiledRestriction(r.network, if r.path == "" then None else Some(PatternToRgx(lower(r.path))), r.invert, r.andAfter)
  }

  function Compile<B>(r: Route<B>, lower: string -> string): Compiled {
    Compiled(PatternToRgx(lower(OrStar(r.host))), PatternToRgx(lower(OrStar(r.path))),
             seq(|r.restrictions|, i requires 0 <= i < |r.restrictions| => CompileRestriction(r.restrictions[i], lower)))
  }

  // ---- what the options mean ---------------------------------------------------------------------------------------

  /** A path pattern covers a path if it matches it with or without a slash more. */
  ghost predicate Covers(pattern: string, path: string) {
    GlobMatch(pattern, path) || GlobMatch(pattern, path + "/")
  }

  /** A restriction holds if its network or its path does, each of them inverted if asked for. */
  ghost predicate Holds(r: Restriction, path: string, lower: string -> string) {
    || (r.network.Some? && r.network.value != r.invert)
    || (r.path != "" && Covers(lower(r.path), path) != r.invert)
  }

  /** All restrictions from i on and before j are followed by "and": i and j belong to one conjunction. */
  predicate Joined(rs: seq<Restriction>, i: nat, j: nat)
    requires i <= j <= |rs|
  {
    forall k :: i <= k < j ==> rs[k].andAfter
  }

  ghost predicate GroupHolds(rs: seq<Restriction>, j: nat, path: string, lower: string -> string)
    requires j < |rs|
  {
    forall i :: 0 <= i <= j && Joined(rs, i, j) ==> Holds(rs[i], path, lower)
  }

  /** The restrictions are a disjunction of conjunctions: a conjunction ends with a restriction that is not followed by
      "and". */
  ghost predicate Restricted(rs: seq<Restriction>, path: string, lower: string -> string) {
    exists j :: 0 <= j < |rs| && !rs[j].andAfter && GroupHolds(rs, j, path, lower)
  }

  ghost predicate Applies<B>(r: Route<B>, host: string, path: string, lower: string -> string) {
    GlobMatch(lower(OrStar(r.host)), host) && Covers(lower(OrStar(r.path)), path)
  }

  // ---- evaluation --------------------------------------------------------------------------------------------------

  lemma RestrictionCompiled(r: Restriction, path: string, lower: string -> string)
    requires r.path != ""
    ensures var rgx := CompileRestriction(r, lower).pathRgx;
            rgx.Some? && ((MatchString(rgx.value, path) || MatchString(rgx.value, path + "/")) <==> Covers(lower(r.path), path))
  {
    CompilerPreservesMeaning(lower(r.path), path);
    CompilerPreservesMeaning(lower(r.path), path + "/");
  }

  /** The body of the loop of isRouteRestricted. */
  method Check(c: CompiledRestriction, path: string, ghost r: Restriction, ghost lower: string -> string)
    returns (restrictionOK: bool)
    requires c == CompileRestriction(r, lower)
    ensures restrictionOK <==>
              || (r.network.Some? && r.network.value != r.invert)
              || (r.path != "" && (GlobMatch(lower(r.path), path) || GlobMatch(lower(r.path), path + "/")) != r.invert)
  {
    hide MatchString, GlobMatch, PatternToRgx;
    restrictionOK := false;
    if c.network.Some? {
      var ok := c.network.value;
      if c.invert {
        ok := !ok;
      }
      restrictionOK := restrictionOK || ok;
    }
    if c.pathRgx.Some? {
      RestrictionCompiled(r, path, lower);
      var ok := MatchString(c.pathRgx.value, path) || MatchString(c.pathRgx.value, path + "/");
      if c.invert {
        ok := !ok;
      }
      restrictionOK := restrictionOK || ok;
    }
  }

  lemma HoldsIs(r: Restriction, path: string, lower: string -> string)
    ensures Holds(r, path, lower) <==>
              || (r.network.Some? && r.network.value != r.invert)
              || (r.path != "" && (GlobMatch(lower(r.path), path) || GlobMatch(lower(r.path), path + "/")) != r.invert)
  {
  }

  /** isRouteRestricted computes the disjunction of conjunctions: some restriction that is not followed by "and" holds, and
      with it all that are joined to it by "and". */
  method IsRouteRestricted<B>(c: Compiled, path: string, ghost route: Route<B>, ghost lower: string -> string)
    returns (restricted: bool)
    requires c == Compile(route, lower)
    ensures restricted <==>
              exists j :: 0 <= j < |route.restrictions| && !route.restrictions[j].andAfter &&
                forall i :: 0 <= i <= j && (forall k :: i <= k < j ==> route.restrictions[k].andAfter) ==>
                  Holds(route.restrictions[i], path, lower)
    ensures restricted <==> Restricted(route.restrictions, path, lower)
  {
    hide Holds, CompileRestriction;
    RestrictedIs(route.restrictions, path, lower);
    ghost var rs := route.restrictions;
    var andOK := true;
    for i := 0 to |c.restrictions|
      invariant forall j :: 0 <= j < i && !rs[j].andAfter ==> !GroupHolds(rs, j, path, lower)
      invariant andOK <==> forall k :: 0 <= k < i && Joined(rs, k, i) ==> Holds(rs[k], path, lower)
    {
      var restrictionOK := Check(c.restrictions[i], path, rs[i], lower);
      HoldsIs(rs[i], path, lower);
      EndsHere(rs, i, path, lower);
      OneFurther(rs, i);
      assert c.restrictions[i].andAfter == rs[i].andAfter by { AndAfterKept(rs[i], lower); }
      if !c.restrictions[i].andAfter {
        if andOK && restrictionOK {
          return true;
        }
        andOK := true;
      } else {
        andOK := andOK && restrictionOK;
      }
    }
    restricted := false;
  }

  lemma RestrictedIs(rs: seq<Restriction>, path: string, lower: string -> string)
    ensures Restricted(rs, path, lower) <==>
              exists j :: 0 <= j < |rs| && !rs[j].andAfter &&
                forall i :: 0 <= i <= j && (forall k :: i <= k < j ==> rs[k].andAfter) ==> Holds(rs[i], path, lower)
  {
    hide Holds;
    forall j | 0 <= j < |rs|
      ensures GroupHolds(rs, j, path, lower) <==>
              forall i :: 0 <= i <= j && (forall k :: i <= k < j ==> rs[k].andAfter) ==> Holds(rs[i], path, lower)
    {
      assert forall i :: 0 <= i <= j ==> (Joined(rs, i, j) <==> forall k :: i <= k < j ==> rs[k].andAfter);
    }
  }

  lemma AndAfterKept(r: Restriction, lower: string -> string)
    ensures CompileRestriction(r, lower).andAfter == r.andAfter
  {
  }

  lemma OneFurther(rs: seq<Restriction>, i: nat)
    requires i < |rs|
    ensures forall k :: 0 <= k <= i ==> (Joined(rs, k, i + 1) <==> Joined(rs, k, i) && rs[i].andAfter)
  {
  }

  lemma EndsHere(rs: seq<Restriction>, i: nat, path: string, lower: string -> string)
    requires i < |rs|
    ensures GroupHolds(rs, i, path, lower) <==>
            Holds(rs[i], path, lower) && forall k :: 0 <= k < i && Joined(rs, k, i) ==> Holds(rs[k], path, lower)
  {
    assert Joined(rs, i, i);
  }

  /** A last conjunction that is left open, its final restriction being followed by "and" as well, restricts nothing. */
  lemma OpenGroupIgnored(rs: seq<Restriction>, n: nat, path: string, lower: string -> string)
    requires n <= |rs| && forall i :: n <= i < |rs| ==> rs[i].andAfter
    ensures Restricted(rs, path, lower) <==> Restricted(rs[..n], path, lower)
  {
    hide Holds;
    forall j | 0 <= j < n
      ensures GroupHolds(rs, j, path, lower) <==> GroupHolds(rs[..n], j, path, lower)
    {
      assert forall i :: 0 <= i <= j ==> (Joined(rs, i, j) <==> Joined(rs[..n], i, j));
    }
  }

  // ---- routing -----------------------------------------------------------------------------------------------------

  /** What findBackend comes to: the first route that applies decides, by its backends or by a refusal. */
  datatype Decision<B> = Refuse | Go(b: B, bb: B)

  ghost function Decide<B>(routes: seq<Route<B>>, o: Opts<B>, host: string, path: string, lower: string -> string): Decision<B> {
    if routes == [] then Go(o.defaultBackend, o.defaultBackup)
    else if !Applies(routes[0], host, path, lower) then Decide(routes[1..], o, host, path, lower)
    else if Restricted(routes[0].restrictions, path, lower) then Refuse
    else Go(routes[0].backend, routes[0].backup)
  }

  /** Up to route i none applies; then route i decides, if it does. */
  lemma {:induction false} FirstDecides<B>(routes: seq<Route<B>>, i: nat, o: Opts<B>, host: string, path: string,
                                           lower: string -> string)
    requires i <= |routes| && forall j :: 0 <= j < i ==> !Applies(routes[j], host, path, lower)
    ensures i < |routes| && Applies(routes[i], host, path, lower) ==>
              Decide(routes, o, host, path, lower) ==
              if Restricted(routes[i].restrictions, path, lower) then Refuse else Go(routes[i].backend, routes[i].backup)
    ensures i == |routes| ==> Decide(routes, o, host, path, lower) == Go(o.defaultBackend, o.defaultBackup)
  {
    hide Applies, Restricted;
    if i > 0 {
      FirstDecides(routes[1..], i - 1, o, host, path, lower);
    }
  }

  /** A route applies if its host pattern matches the host and its path pattern the path, with or without a slash more; a
      pattern that is not given is a star. */
  lemma AppliesIs<B>(r: Route<B>, host: string, path: string, lower: string -> string)
    ensures Applies(r, host, path, lower) <==>
              && GlobMatch(lower(if r.host == "" then "*" else r.host), host)
              && var p := lower(if r.path == "" then "*" else r.path); GlobMatch(p, path) || GlobMatch(p, path + "/")
  {
  }

  lemma RouteCompiled<B>(r: Route<B>, host: string, path: string, lower: string -> string)
    ensures var c := Compile(r, lower);
            MatchString(c.hostRgx, host) && (MatchString(c.pathRgx, path) || MatchString(c.pathRgx, path + "/")) <==>
            Applies(r, host, path, lower)
  {
    hide MatchString, GlobMatch, PatternToRgx;
    CompilerPreservesMeaning(lower(OrStar(r.host)), host);
    CompilerPreservesMeaning(lower(OrStar(r.path)), path);
    CompilerPreservesMeaning(lower(OrStar(r.path)), path + "/");
  }

  /** findBackend, on the compiled routes, for the host and the path of a request.  The first route that applies decides: it
      refuses if it is restricted, and else its backend and its backup are taken.  If none applies the default ones are. */
  method FindBackend<B>(o: Opts<B>, compiled: seq<Compiled>, hostname: string, urlPath: string, lower: string -> string)
    returns (d: Decision<B>)
    requires |compiled| == |o.routes| && forall i :: 0 <= i < |o.routes| ==> compiled[i] == Compile(o.routes[i], lower)
    ensures var host, path := lower(hostname), lower(Collapse(urlPath));
            && (forall i :: (0 <= i < |o.routes| && Applies(o.routes[i], host, path, lower)
                             && forall j :: 0 <= j < i ==> !Applies(o.routes[j], host, path, lower)) ==>
                  if Restricted(o.routes[i].restrictions, path, lower) then d == Refuse
                  else d == Go(o.routes[i].backend, o.routes[i].backup))
            && ((forall i :: 0 <= i < |o.routes| ==> !Applies(o.routes[i], host, path, lower)) ==>
                  d == Go(o.defaultBackend, o.defaultBackup))
    ensures d == Decide(o.routes, o, lower(hostname), lower(Collapse(urlPath)), lower)
  {
    hide Compile, Applies, Restricted, MatchString, Collapse;
    for i := 0 to |o.routes|
      invariant forall j :: 0 <= j < i ==> !Applies(o.routes[j], lower(hostname), lower(Collapse(urlPath)), lower)
    {
      var route, c := o.routes[i], compiled[i];
      var host := lower(hostname);
      var path := Normalize(urlPath);
      path := lower(path);
      FirstDecides(o.routes, i, o, host, path, lower);
      RouteCompiled(route, host, path, lower);
      if MatchString(c.hostRgx, host) && (MatchString(c.pathRgx, path) || MatchString(c.pathRgx, path + "/")) {
        var restricted := IsRouteRestricted(c, path, route, lower);
        if restricted {
          return Refuse;
        }
        return Go(route.backend, route.backup);
      }
    }
    FirstDecides(o.routes, |o.routes|, o, lower(hostname), lower(Collapse(urlPath)), lower);
    d := Go(o.defaultBackend, o.defaultBackup);
  }

  /** Slashes and dots put in after a slash of the path change neither the route nor the restrictions. */
  lemma PaddingIrrelevant<B>(o: Opts<B>, hostname: string, a: string, x: char, b: string, lower: string -> string)
    requires x == '/' || x == '.'
    ensures Decide(o.routes, o, lower(hostname), lower(Collapse(a + ("/" + ([x] + b)))), lower) ==
            Decide(o.routes, o, lower(hostname), lower(Collapse(a + ("/" + b))), lower)
  {
    PaddingVanishes(a, x, b);
  }
}
