/**
 * The `.geo` accessor of an xarray Dataset: it fans `set_dims` and `set_crs`
 * out to the member variables' accessors and folds their CRS values into one.
 */
module DatasetAccessor {
  import opened Util
  import opened DimRoles
  import opened GeoTypes
  import opened DataArrayAccessor

  /** An explicit name passes through only when the member has that dimension. */
  function KeepIfPresent(name: Option<string>, dims: seq<string>): Option<string>
  {
    if name.Some? && name.value in dims then name else None
  }

  /** The keyword arguments a member with dimensions `dims` receives from the Dataset `set_dims`. */
  function Forwarded(explicit: RoleBindings, dims: seq<string>): (fwd: RoleBindings)
    ensures forall role :: fwd.Get(role) == KeepIfPresent(explicit.Get(role), dims)
  {
    RoleBindings(KeepIfPresent(explicit.x, dims), KeepIfPresent(explicit.y, dims),
                 KeepIfPresent(explicit.vertical, dims), KeepIfPresent(explicit.time, dims))
  }

  /**
   * What a member's `set_dims` does with the forwarded names: it never raises;
   * each forwarded name binds its role; a role with no forwarded name keeps its
   * binding, or takes its first present candidate when unbound.
   */
  lemma ForwardedCompletes(current: RoleBindings, explicit: RoleBindings, dims: seq<string>, role: Role)
    ensures var out := SetDimsSpec(current, Forwarded(explicit, dims), dims);
            && out.Completed?
            && (explicit.Get(role).Some? && explicit.Get(role).value in dims ==> out.roles.Get(role) == explicit.Get(role))
            && (KeepIfPresent(explicit.Get(role), dims).None? && current.Get(role).Some? ==> out.roles.Get(role) == current.Get(role))
            && (KeepIfPresent(explicit.Get(role), dims).None? && current.Get(role).None? ==>
                  out.roles.Get(role) == FirstPresent(Candidates(role), dims))
  {
    var fwd := Forwarded(explicit, dims);
    SetDimsFailsIff(current, fwd, dims);
    assert forall other :: !Rejects(fwd, other, dims);
    SetDimsRoleRules(current, fwd, dims, role);
  }

  /** The names of `s` once each, in the order they are first seen (the keys of a dict filled from `s`). */
  function Dedup(s: seq<string>): (r: seq<string>)
    ensures Distinct(r) && forall x :: x in r <==> x in s
  {
    if s == [] then []
    else
      var init := Dedup(s[..|s| - 1]);
      assert s == s[..|s| - 1] + [s[|s| - 1]];
      if s[|s| - 1] in init then init else init + [s[|s| - 1]]
  }

  /** A sequence without repeats is its own deduplication. */
  lemma {:induction false} DedupDistinct(s: seq<string>)
    requires Distinct(s)
    ensures Dedup(s) == s
  {
    if s != [] {
      var init := s[..|s| - 1];
      assert Distinct(init);
      DedupDistinct(init);
      assert s[|s| - 1] !in init;
      assert init + [s[|s| - 1]] == s;
    }
  }

  /**
   * The decision of the Dataset `crs` property on the distinct member CRS
   * values: exactly one is the result, two or more raise "more than one CRS",
   * none raises "No CRS information found".
   */
  predicate DecidedOn(values: set<Option<Crs>>, r: Result<Option<Crs>, GeoError>)
  {
    && (r.Ok? <==> |values| == 1)
    && (r.Ok? ==> values == {r.value})
    && (r == Err(MoreThanOneCrs) <==> |values| >= 2)
    && (r == Err(NoCrsFound) <==> values == {})
  }

  /**
   * The `crs` property's decision on the set of distinct member CRS values:
   * exactly one is the Dataset CRS, two or more raise "more than one CRS",
   * none raises "No CRS information found".
   */
  method Aggregate(values: set<Option<Crs>>) returns (r: Result<Option<Crs>, GeoError>)
    ensures r.Ok? <==> |values| == 1
    ensures r.Ok? ==> values == {r.value}
    ensures r == Err(MoreThanOneCrs) <==> |values| >= 2
    ensures r == Err(NoCrsFound) <==> values == {}
    ensures DecidedOn(values, r)
  {
    if |values| == 1 {
      var v :| v in values;
      assert |values - {v}| == 0;
      assert values == {v};
      r := Ok(v);
    } else if |values| >= 1 {
      r := Err(MoreThanOneCrs);
    } else {
      r := Err(NoCrsFound);
    }
  }

  /** What the Dataset `set_dims` leaves on one member, given the member's bindings and role map before the call. */
  ghost predicate DimsForwarded(a: GeoDataArrayAccessor, before: RoleBindings, beforeMap: DimMapCache, explicit: RoleBindings)
    reads a
  {
    var fwd := Forwarded(explicit, a.obj.dims);
    if fwd == Unbound then a.Bindings() == before && a.dimMap == beforeMap
    else a.Bindings() == SetDimsSpec(before, fwd, a.obj.dims).roles && a.dimMap == Stale
  }

  /** A member after the Dataset `set_dims`: its dimensions forwarded, its CRS state untouched. */
  twostate predicate DimsDone(a: GeoDataArrayAccessor, explicit: RoleBindings)
    reads a
  {
    && DimsForwarded(a, old(a.Bindings()), old(a.dimMap), explicit)
    && a.crs == old(a.crs) && a.isGridded == old(a.isGridded) && a.warnings == old(a.warnings)
  }

  /** A member accessor's state: its role bindings, role map, CRS cache, gridded flag and warning count. */
  datatype MemberState = MemberState(bindings: RoleBindings, dimMap: DimMapCache, crs: CrsCache, isGridded: Option<bool>, warnings: nat)

  ghost function StateOf(a: GeoDataArrayAccessor): MemberState
    reads a
  {
    MemberState(a.Bindings(), a.dimMap, a.crs, a.isGridded, a.warnings)
  }

  /** Two member states that differ at most in the CRS cache. */
  predicate SameButCrs(s: MemberState, t: MemberState)
  {
    s.bindings == t.bindings && s.dimMap == t.dimMap && s.isGridded == t.isGridded && s.warnings == t.warnings
  }

  /**
   * A member's state after one read of its `crs` property: a held cache is
   * left alone; otherwise a dangling `grid_mapping` attribute costs a
   * warning, what the search finds is cached (nothing when it raises), and a
   * swath without a CRS is marked as not gridded.
   */
  function AfterRead(s: MemberState, obj: DataArray, backend: Backend): (t: MemberState)
    ensures t.bindings == s.bindings && t.dimMap == s.dimMap
    ensures CrsRead(s.crs, obj, backend).Ok? <==> t.crs != Unresolved
    ensures CrsRead(s.crs, obj, backend).Ok? ==> CrsRead(s.crs, obj, backend).value == View(t.crs)
    ensures t.isGridded != s.isGridded ==> CrsRead(s.crs, obj, backend) == Err(UnboundCrs) && t.isGridded == Some(false)
    ensures CrsRead(s.crs, obj, backend) == Err(UnboundCrs) ==> t.isGridded == Some(false)
    ensures t.warnings == s.warnings + (if s.crs == Unresolved && WarnsGridMapping(obj) then 1 else 0)
  {
    if s.crs != Unresolved then s
    else
      var w := s.(warnings := s.warnings + (if WarnsGridMapping(obj) then 1 else 0));
      match SearchCrs(obj, backend)
      case Found(c) => w.(crs := Present(c))
      case NotFound => w.(crs := Absent)
      case ParseFailed => w
      case SwathUnbound => w.(isGridded := Some(false))
  }

  /** One member's turn in the Dataset `set_dims` loop. */
  method ForwardDims(a: GeoDataArrayAccessor, explicit: RoleBindings)
    requires a.Valid()
    modifies a
    ensures a.Valid() && DimsDone(a, explicit)
  {
    var fwd := Forwarded(explicit, a.obj.dims);
    if fwd == Unbound {
      return;
    }
    ForwardedCompletes(a.Bindings(), explicit, a.obj.dims, X);
    var status := a.SetDims(fwd.x, fwd.y, fwd.vertical, fwd.time);
  }

  /** One member's turn in `_set_crs_objects`: its `crs` property, which leaves its dimensions alone. */
  method Resolve(a: GeoDataArrayAccessor, backend: Backend) returns (c: Result<Option<Crs>, GeoError>)
    requires a.Valid()
    modifies a
    ensures a.Valid() && a.Bindings() == old(a.Bindings()) && a.dimMap == old(a.dimMap)
    ensures c.Ok? ==> a.crs != Unresolved && c.value == View(a.crs)
    ensures c.Err? ==> c.error == CrsParseError || c.error == UnboundCrs
    ensures c == CrsRead(old(a.crs), a.obj, backend)
    ensures StateOf(a) == AfterRead(old(StateOf(a)), a.obj, backend)
  {
    c := a.ReadCrs(backend);
  }

  class GeoDatasetAccessor {
    /** The Dataset's variable names, in iteration order. */
    const names: seq<string>
    /** The accessor of each variable. */
    const variables: map<string, GeoDataArrayAccessor>
    /** The Dataset-wide CRS cache. */
    var crs: CrsCache
    /** The name of each member accessor: distinct variables have distinct accessors. */
    ghost const nameOf: map<GeoDataArrayAccessor, string>

    /**
     * The shape of the Dataset, which no operation changes: distinct variable
     * names, one accessor per variable, distinct variables have distinct
     * accessors, none of which is the Dataset accessor itself.
     */
    ghost predicate Shaped()
    {
      && Distinct(names)
      && (forall n :: n in variables <==> n in names)
      && (forall n :: n in variables ==> variables[n] in nameOf && nameOf[variables[n]] == n)
      && (forall n :: n in variables ==> variables[n] as object != this)
    }

    ghost predicate Valid()
      reads variables.Values
    {
      Shaped() && forall n :: n in variables ==> variables[n].Valid()
    }

    /** `__init__`: no Dataset CRS is held yet. */
    constructor (names: seq<string>, variables: map<string, GeoDataArrayAccessor>)
      requires Distinct(names) && (forall n :: n in variables <==> n in names)
      requires forall n1, n2 :: n1 in variables && n2 in variables && n1 != n2 ==> variables[n1] != variables[n2]
      requires forall a :: a in variables.Values ==> a.Valid()
      ensures Valid() && this.names == names && this.variables == variables && crs == Unresolved
    {
      this.names := names;
      this.variables := variables;
      nameOf := map n | n in variables :: variables[n] := n;
      crs := Unresolved;
    }

    /** The variable named by a member's `grid_mapping` attribute, when the Dataset has one of that name. */
    function GridMappingOf(n: string): Option<string>
      requires n in variables
    {
      var gm := variables[n].obj.Attr("grid_mapping");
      if gm.Text? && gm.text in variables then Some(gm.text) else None
    }

    /** The names `set_crs` visits: the given ones, or every variable. */
    function Requested(requested: Option<seq<string>>): seq<string>
    {
      if requested.None? then names else requested.value
    }

    /**
     * The CRS cache `set_crs` leaves on member `n`, whose cache was `before`:
     * the forced value when one is given; otherwise the CRS parsed from its
     * grid-mapping variable's attrs when it has one (None when that parse
     * raises); otherwise the cache as it was.
     */
    function CacheAfterSetCrs(n: string, value: CrsCache, before: CrsCache, backend: Backend): Option<CrsCache>
      requires n in variables
    {
      if value != Unresolved then Some(value)
      else match GridMappingOf(n)
        case Some(g) => (match backend.fromCf(variables[g].obj.attrs)
                         case Some(c) => Some(Present(c))
                         case None => None)
        case None => Some(before)
    }

    /**
     * The cases of one `set_crs` visit: a forced value is stored as given; a
     * member whose `grid_mapping` attribute is the name of a Dataset variable
     * gets that variable's CF-parsed CRS, or the visit raises when the parse
     * does; any other member keeps its cache.
     */
    lemma CacheAfterSetCrsCases(n: string, value: CrsCache, before: CrsCache, backend: Backend)
      requires n in variables
      ensures var g, c := GridMappingOf(n), CacheAfterSetCrs(n, value, before, backend);
              && (g.Some? <==> variables[n].obj.Attr("grid_mapping").Text? && variables[n].obj.Attr("grid_mapping").text in variables)
              && (g.Some? ==> g.value in variables && variables[n].obj.Attr("grid_mapping") == Text(g.value))
              && (value != Unresolved ==> c == Some(value))
              && (c.None? <==> value == Unresolved && g.Some? && backend.fromCf(variables[g.value].obj.attrs).None?)
              && (value == Unresolved && g.Some? && c.Some? ==> c == Some(Present(backend.fromCf(variables[g.value].obj.attrs).value)))
              && (value == Unresolved && g.None? ==> c == Some(before))
    {
    }

    /** Visiting `n` in the `set_crs` loop raises: the name is missing, or its grid mapping's CF parse raises. */
    predicate SetCrsFails(n: string, value: CrsCache, backend: Backend)
    {
      n !in variables || CacheAfterSetCrs(n, value, Unresolved, backend).None?
    }

    /** The error that visit raises. */
    function SetCrsError(n: string): GeoError
    {
      if n in variables then CrsParseError else VariableNotFound(n)
    }

    /** `todo[k]` is the first name whose visit in the `set_crs` loop raises. */
    ghost predicate FirstSetCrsFailure(todo: seq<string>, k: int, value: CrsCache, backend: Backend)
    {
      && 0 <= k < |todo|
      && SetCrsFails(todo[k], value, backend)
      && forall j :: 0 <= j < k ==> !SetCrsFails(todo[j], value, backend)
    }

    /** The grid-mapping variables named by the members in `ns`. */
    ghost function GridMappings(ns: seq<string>): set<string>
    {
      set n | n in ns && n in variables && GridMappingOf(n).Some? :: GridMappingOf(n).value
    }

    lemma GridMappingsSnoc(ns: seq<string>, n: string)
      requires n in variables
      ensures GridMappings(ns + [n]) == GridMappings(ns) + (if GridMappingOf(n).Some? then {GridMappingOf(n).value} else {})
    {
      if GridMappingOf(n).Some? {
        assert GridMappingOf(n).value in GridMappings(ns + [n]);
      }
    }

    /** What reading member `n`'s `crs` returns when its cache is `caches[n]`. */
    function ReadOf(caches: map<string, CrsCache>, n: string, backend: Backend): Result<Option<Crs>, GeoError>
      requires n in variables && n in caches
    {
      CrsRead(caches[n], variables[n].obj, backend)
    }

    /** `order[k]` is the first member whose read raises, reading from `caches`. */
    ghost predicate FirstReadFailure(caches: map<string, CrsCache>, order: seq<string>, k: int, backend: Backend)
    {
      && 0 <= k < |order|
      && order[k] in variables && order[k] in caches && ReadOf(caches, order[k], backend).Err?
      && forall j :: 0 <= j < k ==> order[j] in variables && order[j] in caches && ReadOf(caches, order[j], backend).Ok?
    }

    /**
     * Reading the members of `order` in turn from the caches `caches`: the
     * result maps each to what its read returns, now its cache's view, or is
     * the error of the first read that raises.
     */
    ghost predicate ResolvedFrom(caches: map<string, CrsCache>, order: seq<string>, backend: Backend,
                                 r: Result<map<string, Option<Crs>>, GeoError>)
      requires forall n :: n in order ==> n in variables && n in caches
      reads variables.Values
    {
      && ReadsFrom(caches, order, backend, r)
      && (r.Ok? ==> forall n :: n in order ==> variables[n].crs != Unresolved && r.value[n] == View(variables[n].crs))
    }

    /** The part of `ResolvedFrom` that does not depend on the members' state. */
    ghost predicate ReadsFrom(caches: map<string, CrsCache>, order: seq<string>, backend: Backend,
                              r: Result<map<string, Option<Crs>>, GeoError>)
      requires forall n :: n in order ==> n in variables && n in caches
    {
      && (r.Ok? <==> forall j :: 0 <= j < |order| ==> ReadOf(caches, order[j], backend).Ok?)
      && (r.Ok? ==> (forall n :: n in r.value <==> n in order)
                    && forall n :: n in order ==> r.value[n] == ReadOf(caches, n, backend).value)
      && (r.Err? ==> exists k :: FirstReadFailure(caches, order, k, backend) && r.error == ReadOf(caches, order[k], backend).error)
    }

    /** The cache each member holds once `set_crs` has visited it, starting from the member states `start`. */
    ghost function CachesAfterSetCrs(start: map<string, MemberState>, value: CrsCache, backend: Backend): map<string, CrsCache>
    {
      map n | n in start && n in variables ::
        var c := CacheAfterSetCrs(n, value, start[n].crs, backend);
        if c.Some? then c.value else start[n].crs
    }

    /**
     * `_set_crs_objects` from the member states `start`: the first name whose
     * `set_crs` visit raises gives the error; otherwise every requested member
     * is read, once each in first-seen order, from the cache `set_crs` left.
     */
    ghost predicate ObjectsFrom(start: map<string, MemberState>, value: CrsCache, todo: seq<string>, backend: Backend,
                                r: Result<map<string, Option<Crs>>, GeoError>)
    {
      if exists k :: FirstSetCrsFailure(todo, k, value, backend) then
        exists k :: FirstSetCrsFailure(todo, k, value, backend) && r == Err(SetCrsError(todo[k]))
      else
        (forall n :: n in todo ==> n in start && n in variables) ==>
          ReadsFrom(CachesAfterSetCrs(start, value, backend), Dedup(todo), backend, r)
    }

    /**
     * The Dataset `crs` property, when no CRS is held, from the member states
     * `start`: a CF parse that raises is the error; then the first member
     * whose read raises gives the error; otherwise the distinct values read
     * decide (see `DecidedOn`).
     */
    ghost predicate DatasetCrsFrom(start: map<string, MemberState>, backend: Backend, r: Result<Option<Crs>, GeoError>)
    {
      var caches := CachesAfterSetCrs(start, Unresolved, backend);
      if exists k :: FirstSetCrsFailure(names, k, Unresolved, backend) then r == Err(CrsParseError)
      else if exists k :: FirstReadFailure(caches, names, k, backend) then
        exists k :: FirstReadFailure(caches, names, k, backend) && r == Err(ReadOf(caches, names[k], backend).error)
      else
        DecidedOn(set n | n in names && n in variables && n in caches && ReadOf(caches, n, backend).Ok? :: ReadOf(caches, n, backend).value, r)
    }

    /** The member states once `set_crs` has visited the names `visited`, each left with the cache `caches` gives it. */
    ghost function SetStates(start: map<string, MemberState>, caches: map<string, CrsCache>, visited: seq<string>)
      : map<string, MemberState>
    {
      map n | n in start :: if n in visited && n in caches then start[n].(crs := caches[n]) else start[n]
    }

    /** The member states once each of the names `read` has had its `crs` read once. */
    ghost function ReadStates(start: map<string, MemberState>, read: seq<string>, backend: Backend): map<string, MemberState>
    {
      map n | n in start :: if n in read && n in variables then AfterRead(start[n], variables[n].obj, backend) else start[n]
    }

    /** Reading `order` in turn from `caches` makes `k` reads: all of them, or up to and including the first that raises. */
    ghost predicate ReadsEndAt(caches: map<string, CrsCache>, order: seq<string>, k: int, backend: Backend)
    {
      || (k == |order| && forall j :: 0 <= j < |order| ==>
                            order[j] in variables && order[j] in caches && ReadOf(caches, order[j], backend).Ok?)
      || (k >= 1 && FirstReadFailure(caches, order, k - 1, backend))
    }

    /**
     * The member states `_set_crs_objects` leaves, from the states `start`:
     * when a `set_crs` visit raises, the names before it hold the caches
     * `set_crs` gave them and nothing is read; otherwise every requested
     * member holds its `set_crs` cache and is then read once, in first-seen
     * order, up to and including the first read that raises. Every other
     * member is as it was.
     */
    ghost predicate MembersFrom(start: map<string, MemberState>, value: CrsCache, todo: seq<string>, backend: Backend)
      reads variables.Values
    {
      var caches := CachesAfterSetCrs(start, value, backend);
      if exists k :: FirstSetCrsFailure(todo, k, value, backend) then
        exists k :: FirstSetCrsFailure(todo, k, value, backend) && States() == SetStates(start, caches, todo[..k])
      else
        exists k :: ReadsEndAt(caches, Dedup(todo), k, backend)
                    && States() == ReadStates(SetStates(start, caches, todo), Dedup(todo)[..k], backend)
    }

    /** A member that `_set_crs_objects` was not asked for is left exactly as it was. */
    lemma MembersFromOutside(start: map<string, MemberState>, value: CrsCache, todo: seq<string>, backend: Backend)
      requires start.Keys == variables.Keys && MembersFrom(start, value, todo, backend)
      ensures forall n :: n in variables && n !in todo ==> StateOf(variables[n]) == start[n]
    {
      var caches := CachesAfterSetCrs(start, value, backend);
      if exists k :: FirstSetCrsFailure(todo, k, value, backend) {
        var k :| FirstSetCrsFailure(todo, k, value, backend) && States() == SetStates(start, caches, todo[..k]);
        forall n | n in variables && n !in todo
          ensures StateOf(variables[n]) == start[n]
        {
          assert n !in todo[..k];
          assert States()[n] == StateOf(variables[n]);
        }
      } else {
        var k :| ReadsEndAt(caches, Dedup(todo), k, backend)
                 && States() == ReadStates(SetStates(start, caches, todo), Dedup(todo)[..k], backend);
        forall n | n in variables && n !in todo
          ensures StateOf(variables[n]) == start[n]
        {
          assert n !in Dedup(todo)[..k];
          assert States()[n] == StateOf(variables[n]);
        }
      }
    }

    /**
     * `set_dims`: each variable receives only the explicit names among its
     * own dimensions; a variable receiving none is skipped. Nothing raises.
     */
    method SetDims(x: Option<string>, y: Option<string>, vertical: Option<string>, time: Option<string>)
      requires Valid()
      modifies variables.Values
      ensures Valid() && ForwardedFrom(old(States()), names, RoleBindings(x, y, vertical, time))
    {
      var explicit := RoleBindings(x, y, vertical, time);
      ghost var start := States();
      for i := 0 to |names|
        invariant Valid() && start.Keys == variables.Keys
        invariant ForwardedFrom(start, names[..i], explicit)
      {
        assert names[..i + 1] == names[..i] + [names[i]];
        ForwardOne(names[i], explicit, start, names[..i]);
      }
      assert names[..|names|] == names;
    }

    /**
     * Measured against the member states `start`: the members named in `done`
     * carry what `set_dims` forwards to them, the others are as they were, and
     * no CRS state changed.
     */
    ghost predicate ForwardedFrom(start: map<string, MemberState>, done: seq<string>, explicit: RoleBindings)
      reads variables.Values
    {
      forall n :: n in variables && n in start ==>
        var a, s := variables[n], start[n];
        && a.crs == s.crs && a.isGridded == s.isGridded && a.warnings == s.warnings
        && if n in done then DimsForwarded(a, s.bindings, s.dimMap, explicit)
           else a.Bindings() == s.bindings && a.dimMap == s.dimMap
    }

    /** One variable's turn in the `set_dims` loop extends `ForwardedFrom` by its name. */
    method ForwardOne(name: string, explicit: RoleBindings, ghost start: map<string, MemberState>, ghost done: seq<string>)
      requires Valid() && name in variables && name !in done && start.Keys == variables.Keys
      requires ForwardedFrom(start, done, explicit)
      modifies variables[name]
      ensures Valid() && ForwardedFrom(start, done + [name], explicit)
    {
      ForwardDims(variables[name], explicit);
    }

    /** Every member's state, by variable name. */
    ghost function States(): (m: map<string, MemberState>)
      reads variables.Values
      ensures m.Keys == variables.Keys
    {
      map n | n in variables :: StateOf(variables[n])
    }

    /**
     * Measured against the member states `start`: the members named in
     * `applied` are Dataset variables whose caches `CacheAfterSetCrs` gives;
     * every other member's cache is as it was; no member changed anything but
     * its CRS cache.
     */
    ghost predicate AppliedFrom(start: map<string, MemberState>, applied: seq<string>, value: CrsCache, backend: Backend)
      reads variables.Values
    {
      && (forall n :: n in applied ==> n in variables)
      && forall n :: n in variables && n in start ==>
           && SameButCrs(StateOf(variables[n]), start[n])
           && if n in applied then CacheAfterSetCrs(n, value, start[n].crs, backend) == Some(variables[n].crs)
              else variables[n].crs == start[n].crs
    }

    /** Storing `target` (Unresolved: storing nothing) is what `set_crs` does to member `name`, whatever its cache was. */
    ghost predicate Stores(name: string, value: CrsCache, backend: Backend, target: CrsCache)
      requires name in variables
    {
      forall before :: CacheAfterSetCrs(name, value, before, backend) == Some(if target == Unresolved then before else target)
    }

    /**
     * The decision of one turn of the `set_crs` loop for variable `name`:
     * the cache to store (Unresolved: leave the member alone), or the error
     * the CF parser raises. `gmapCrs` holds the CRS already parsed per
     * grid-mapping name; `parsed` is the grid-mapping name handed to the CF
     * parser in this turn, which is never one already in `gmapCrs`, and
     * `parsesAfter` extends the log `parses` of earlier parses by it.
     */
    method CrsTarget(name: string, value: CrsCache, gmapCrs: map<string, Crs>, backend: Backend, ghost parses: seq<string>)
      returns (status: Outcome<GeoError>, target: CrsCache, updated: map<string, Crs>, parsed: Option<string>,
               ghost parsesAfter: seq<string>)
      requires name in variables
      requires Distinct(parses) && (forall g :: g in parses <==> g in gmapCrs) && (value != Unresolved ==> parses == [])
      requires forall g :: g in gmapCrs ==> g in variables && backend.fromCf(variables[g].obj.attrs) == Some(gmapCrs[g])
      ensures forall g :: g in updated ==> g in variables && backend.fromCf(variables[g].obj.attrs) == Some(updated[g])
      ensures parsed.Some? ==> value == Unresolved && parsed.value !in gmapCrs
      ensures status.Pass? ==> updated.Keys == gmapCrs.Keys + (if parsed.Some? then {parsed.value} else {})
      ensures parsesAfter == parses + (if parsed.Some? then [parsed.value] else [])
      ensures Distinct(parsesAfter) && (value != Unresolved ==> parsesAfter == [])
      ensures status.Pass? ==> forall g :: g in parsesAfter <==> g in updated
      ensures status.Pass? ==> Stores(name, value, backend, target)
      ensures status.Fail? ==> status.error == CrsParseError && value == Unresolved
                               && forall before :: CacheAfterSetCrs(name, value, before, backend) == None
      ensures status.Fail? <==> CacheAfterSetCrs(name, value, Unresolved, backend).None?
      ensures status.Pass? && value == Unresolved ==>
                updated.Keys == gmapCrs.Keys + (if GridMappingOf(name).Some? then {GridMappingOf(name).value} else {})
    {
      updated := gmapCrs;
      target := value;
      status := Pass;
      parsed := None;
      parsesAfter := parses;
      if value == Unresolved {
        var gm := GridMappingOf(name);
        if gm.Some? {
          var g := gm.value;
          if g !in updated {
            parsed := Some(g);
            parsesAfter := parses + [g];
            var parsedCrs := backend.fromCf(variables[g].obj.attrs);
            if parsedCrs.None? {
              return Fail(CrsParseError), target, updated, parsed, parsesAfter;
            }
            updated := updated[g := parsedCrs.value];
          }
          target := Present(updated[g]);
        }
      }
    }

    /** Storing the decided cache on member `name` extends `AppliedFrom` by that name. */
    method Store(name: string, target: CrsCache, value: CrsCache, backend: Backend,
                 ghost start: map<string, MemberState>, ghost applied: seq<string>)
      requires Valid() && name in variables && start.Keys == variables.Keys
      requires AppliedFrom(start, applied, value, backend)
      requires Stores(name, value, backend, target)
      modifies variables[name]
      ensures Valid()
      ensures AppliedFrom(start, if name in applied then applied else applied + [name], value, backend)
    {
      if target != Unresolved {
        variables[name].SetCrs(target);
      }
    }

    /**
     * The state of the `set_crs` loop once it has handled `todo[..i]`:
     * `applied` the names handled, once each; `gmapCrs` the CRS parsed per
     * grid-mapping name, exactly the grid mappings of `applied` when no value
     * is forced; `parses` the log of those parses; no name so far raised.
     */
    ghost predicate SetCrsLoop(todo: seq<string>, i: int, value: CrsCache, backend: Backend, start: map<string, MemberState>,
                               applied: seq<string>, gmapCrs: map<string, Crs>, parses: seq<string>)
      reads variables.Values
    {
      && Valid() && start.Keys == variables.Keys
      && AppliedFrom(start, applied, value, backend)
      && ParsedSoFar(todo, i, value, backend, applied, gmapCrs, parses)
    }

    /** The part of `SetCrsLoop` that does not depend on the members' state. */
    ghost predicate ParsedSoFar(todo: seq<string>, i: int, value: CrsCache, backend: Backend,
                                applied: seq<string>, gmapCrs: map<string, Crs>, parses: seq<string>)
    {
      && 0 <= i <= |todo|
      && applied == Dedup(todo[..i])
      && (forall g :: g in gmapCrs ==> g in variables && backend.fromCf(variables[g].obj.attrs) == Some(gmapCrs[g]))
      && Distinct(parses) && (forall g :: g in parses <==> g in gmapCrs) && (value != Unresolved ==> parses == [])
      && (forall j :: 0 <= j < i ==> !SetCrsFails(todo[j], value, backend))
      && (value == Unresolved ==> gmapCrs.Keys == GridMappings(applied))
    }

    /** One turn of the `set_crs` loop, for the present variable `todo[i]`. */
    method ApplyStep(todo: seq<string>, i: int, value: CrsCache, backend: Backend, ghost start: map<string, MemberState>,
                     applied: seq<string>, gmapCrs: map<string, Crs>, ghost parses: seq<string>)
      returns (status: Outcome<GeoError>, appliedAfter: seq<string>, gmapAfter: map<string, Crs>, ghost parsesAfter: seq<string>)
      requires 0 <= i < |todo| && todo[i] in variables
      requires SetCrsLoop(todo, i, value, backend, start, applied, gmapCrs, parses)
      modifies variables[todo[i]]
      ensures status.Pass? ==> SetCrsLoop(todo, i + 1, value, backend, start, appliedAfter, gmapAfter, parsesAfter)
      ensures status.Fail? ==> status.error == CrsParseError && value == Unresolved && FirstSetCrsFailure(todo, i, value, backend)
      ensures status.Fail? ==> && Valid() && AppliedFrom(start, applied, value, backend)
                               && Distinct(parsesAfter) && (value != Unresolved ==> parsesAfter == [])
    {
      var name := todo[i];
      assert todo[..i + 1][..i] == todo[..i];
      var target, parsed;
      status, target, gmapAfter, parsed, parsesAfter := CrsTarget(name, value, gmapCrs, backend, parses);
      appliedAfter := applied;
      if status.Fail? {
        return;
      }
      Store(name, target, value, backend, start, applied);
      if name !in applied {
        appliedAfter := applied + [name];
      }
      ParsedStep(todo, i, value, backend, applied, gmapCrs, parses, gmapAfter, parsesAfter);
    }

    /** The loop stops at the first name whose visit raises, with that name's error. */
    lemma StopsAt(todo: seq<string>, i: int, value: CrsCache, backend: Backend,
                  applied: seq<string>, gmapCrs: map<string, Crs>, parses: seq<string>, parsesAfter: seq<string>)
      requires ParsedSoFar(todo, i, value, backend, applied, gmapCrs, parses)
      requires i < |todo| && SetCrsFails(todo[i], value, backend)
      requires Distinct(parsesAfter) && (value != Unresolved ==> parsesAfter == [])
      ensures SetCrsOutcome(todo, value, backend, Err(SetCrsError(todo[i])), applied, parsesAfter)
    {
      assert FirstSetCrsFailure(todo, i, value, backend);
    }

    /** A loop that handled every name returns them, once each, with their grid mappings parsed. */
    lemma Completes(todo: seq<string>, value: CrsCache, backend: Backend,
                    applied: seq<string>, gmapCrs: map<string, Crs>, parses: seq<string>)
      requires ParsedSoFar(todo, |todo|, value, backend, applied, gmapCrs, parses)
      ensures SetCrsOutcome(todo, value, backend, Ok(applied), applied, parses)
    {
      assert todo[..|todo|] == todo;
    }

    /** A turn that does not raise extends `ParsedSoFar` by one name. */
    lemma ParsedStep(todo: seq<string>, i: int, value: CrsCache, backend: Backend,
                     applied: seq<string>, gmapCrs: map<string, Crs>, parses: seq<string>,
                     gmapAfter: map<string, Crs>, parsesAfter: seq<string>)
      requires 0 <= i < |todo| && todo[i] in variables
      requires ParsedSoFar(todo, i, value, backend, applied, gmapCrs, parses)
      requires !SetCrsFails(todo[i], value, backend)
      requires forall g :: g in gmapAfter ==> g in variables && backend.fromCf(variables[g].obj.attrs) == Some(gmapAfter[g])
      requires Distinct(parsesAfter) && (value != Unresolved ==> parsesAfter == [])
      requires forall g :: g in parsesAfter <==> g in gmapAfter
      requires value == Unresolved ==>
                 gmapAfter.Keys == gmapCrs.Keys + (if GridMappingOf(todo[i]).Some? then {GridMappingOf(todo[i]).value} else {})
      ensures ParsedSoFar(todo, i + 1, value, backend, if todo[i] in applied then applied else applied + [todo[i]], gmapAfter, parsesAfter)
    {
      var name := todo[i];
      assert todo[..i + 1][..i] == todo[..i];
      GridMappingsSnoc(applied, name);
      if name in applied && value == Unresolved && GridMappingOf(name).Some? {
        assert GridMappingOf(name).value in GridMappings(applied);
      }
    }

    /**
     * What the `set_crs` loop over `todo` returns: without an error, the
     * names once each in first-seen order, having parsed exactly their grid
     * mappings once each; with one, the error of the first name whose visit
     * raises, after handling the names before it. `done` are the names
     * handled, `parses` the grid-mapping names handed to the CF parser.
     */
    ghost predicate SetCrsOutcome(todo: seq<string>, value: CrsCache, backend: Backend,
                                  r: Result<seq<string>, GeoError>, done: seq<string>, parses: seq<string>)
    {
      && (forall n :: n in done ==> n in todo)
      && (r.Ok? ==> r.value == done == Dedup(todo))
      && (todo == [] ==> r.Ok?)
      && (r.Err? ==> || (r.error == CrsParseError && value == Unresolved)
                     || (r.error.VariableNotFound? && r.error.name in todo && r.error.name !in variables))
      && Distinct(parses) && (value != Unresolved ==> parses == [])
      && (r.Ok? <==> forall j :: 0 <= j < |todo| ==> !SetCrsFails(todo[j], value, backend))
      && (r.Err? ==> exists k :: FirstSetCrsFailure(todo, k, value, backend)
                                 && r.error == SetCrsError(todo[k]) && done == Dedup(todo[..k]))
      && (value == Unresolved && r.Ok? ==> forall g :: g in parses <==> g in GridMappings(done))
    }

    /**
     * `set_crs`: for each requested name (a missing one raises KeyError), a
     * forced value is stored as given; otherwise a member whose `grid_mapping`
     * names a Dataset variable gets the CRS parsed from that variable's attrs,
     * parsed once per grid-mapping name; any other member is left to resolve
     * its own CRS. Returns the requested names, once each, in first-seen order.
     * `done` are the names handled before returning, also on an error;
     * `parses` are the grid-mapping names handed to the CF parser, in order.
     */
    method SetCrs(value: CrsCache, requested: Option<seq<string>>, backend: Backend)
      returns (r: Result<seq<string>, GeoError>, ghost done: seq<string>, ghost parses: seq<string>)
      requires Valid()
      modifies variables.Values
      ensures Valid() && AppliedFrom(old(States()), done, value, backend)
      ensures SetCrsOutcome(Requested(requested), value, backend, r, done, parses)
      ensures forall n1, n2 ::
                (n1 in done && n2 in done && value == Unresolved && GridMappingOf(n1).Some? && GridMappingOf(n1) == GridMappingOf(n2))
                ==> variables[n1].crs == variables[n2].crs
    {
      ghost var start := States();
      r, done, parses := ApplyAll(Requested(requested), value, backend, start);
      SharedGridMapping(start, done, value, backend);
    }

    /** Members handled with the same grid mapping end up holding the same CRS. */
    lemma SharedGridMapping(start: map<string, MemberState>, done: seq<string>, value: CrsCache, backend: Backend)
      requires start.Keys == variables.Keys && AppliedFrom(start, done, value, backend)
      ensures forall n1, n2 ::
                (n1 in done && n2 in done && value == Unresolved && GridMappingOf(n1).Some? && GridMappingOf(n1) == GridMappingOf(n2))
                ==> variables[n1].crs == variables[n2].crs
    {
      forall n1, n2 | n1 in done && n2 in done && value == Unresolved && GridMappingOf(n1).Some? && GridMappingOf(n1) == GridMappingOf(n2)
        ensures variables[n1].crs == variables[n2].crs
      {
        assert CacheAfterSetCrs(n1, value, start[n1].crs, backend) == Some(variables[n1].crs);
        assert CacheAfterSetCrs(n2, value, start[n2].crs, backend) == Some(variables[n2].crs);
      }
    }

    /** The loop of `set_crs` over the names `todo`, measured against the member states `start` it begins from. */
    method ApplyAll(todo: seq<string>, value: CrsCache, backend: Backend, ghost start: map<string, MemberState>)
      returns (r: Result<seq<string>, GeoError>, ghost done: seq<string>, ghost parses: seq<string>)
      requires Valid() && start == States()
      modifies variables.Values
      ensures Valid() && AppliedFrom(start, done, value, backend)
      ensures SetCrsOutcome(todo, value, backend, r, done, parses)
    {
      var applied: seq<string> := [];
      var gmapCrs: map<string, Crs> := map[];
      parses := [];
      for i := 0 to |todo|
        invariant SetCrsLoop(todo, i, value, backend, start, applied, gmapCrs, parses)
      {
        if todo[i] !in variables {
          StopsAt(todo, i, value, backend, applied, gmapCrs, parses, parses);
          return Err(VariableNotFound(todo[i])), applied, parses;
        }
        var status, appliedAfter, gmapAfter;
        ghost var parsesAfter;
        status, appliedAfter, gmapAfter, parsesAfter := ApplyStep(todo, i, value, backend, start, applied, gmapCrs, parses);
        if status.Fail? {
          StopsAt(todo, i, value, backend, applied, gmapCrs, parses, parsesAfter);
          return Err(status.error), applied, parsesAfter;
        }
        applied, gmapCrs, parses := appliedAfter, gmapAfter, parsesAfter;
      }
      Completes(todo, value, backend, applied, gmapCrs, parses);
      r, done := Ok(applied), applied;
    }

    /** `_set_crs_objects`: after `set_crs`, each applied variable's resolved `crs`. */
    method CrsObjects(value: CrsCache, requested: Option<seq<string>>, backend: Backend)
      returns (r: Result<map<string, Option<Crs>>, GeoError>)
      requires Valid()
      modifies variables.Values
      ensures Valid()
      ensures r.Ok? ==> forall n :: n in r.value <==> n in Requested(requested)
      ensures r.Ok? ==> forall n :: n in r.value ==>
                          n in variables && variables[n].crs != Unresolved && r.value[n] == View(variables[n].crs)
      ensures r.Err? ==> r.error == CrsParseError || r.error == UnboundCrs || r.error.VariableNotFound?
      ensures Requested(requested) == [] ==> r.Ok?
      ensures ObjectsFrom(old(States()), value, Requested(requested), backend, r)
      ensures MembersFrom(old(States()), value, Requested(requested), backend)
      ensures forall n :: n in variables ==>
                variables[n].Bindings() == old(variables[n].Bindings()) && variables[n].dimMap == old(variables[n].dimMap)
    {
      ghost var start := States();
      var applied, done, parses := SetCrs(value, requested, backend);
      SetStatesHeld(start, done, value, backend);
      if applied.Err? {
        r := Err(applied.error);
        ObjectsFromOutcome(start, value, Requested(requested), backend, applied, done, parses, r);
        SetFailureStates(start, value, Requested(requested), backend, applied, done, parses);
        return;
      }
      var order := applied.value;
      if order != [] {
        assert order[0] in Requested(requested);
      }
      CachesHeld(start, done, value, backend);
      ghost var mid := States();
      r := ResolveAll(order, backend, CachesAfterSetCrs(start, value, backend), mid);
      ObjectsFromOutcome(start, value, Requested(requested), backend, applied, done, parses, r);
      ReadStatesOutcome(start, value, Requested(requested), backend, applied, done, parses, mid);
    }

    /** After `set_crs`, the member states are those `SetStates` gives for the names it handled. */
    lemma SetStatesHeld(start: map<string, MemberState>, done: seq<string>, value: CrsCache, backend: Backend)
      requires start.Keys == variables.Keys && AppliedFrom(start, done, value, backend)
      ensures States() == SetStates(start, CachesAfterSetCrs(start, value, backend), done)
    {
    }

    /** A `set_crs` visit that raises leaves the states `MembersFrom` names. */
    lemma SetFailureStates(start: map<string, MemberState>, value: CrsCache, todo: seq<string>, backend: Backend,
                           applied: Result<seq<string>, GeoError>, done: seq<string>, parses: seq<string>)
      requires start.Keys == variables.Keys && SetCrsOutcome(todo, value, backend, applied, done, parses) && applied.Err?
      requires States() == SetStates(start, CachesAfterSetCrs(start, value, backend), done)
      ensures MembersFrom(start, value, todo, backend)
    {
      var k :| FirstSetCrsFailure(todo, k, value, backend) && done == Dedup(todo[..k]);
      SetStatesSame(start, CachesAfterSetCrs(start, value, backend), done, todo[..k]);
    }

    /** `SetStates` depends only on which names were visited. */
    lemma SetStatesSame(start: map<string, MemberState>, caches: map<string, CrsCache>, a: seq<string>, b: seq<string>)
      requires forall n :: n in a <==> n in b
      ensures SetStates(start, caches, a) == SetStates(start, caches, b)
    {
    }

    /** `set_crs` without a raise, then the read loop, leaves the states `MembersFrom` names. */
    lemma ReadStatesOutcome(start: map<string, MemberState>, value: CrsCache, todo: seq<string>, backend: Backend,
                            applied: Result<seq<string>, GeoError>, done: seq<string>, parses: seq<string>,
                            mid: map<string, MemberState>)
      requires start.Keys == variables.Keys && SetCrsOutcome(todo, value, backend, applied, done, parses) && applied.Ok?
      requires mid == SetStates(start, CachesAfterSetCrs(start, value, backend), done)
      requires exists k :: ReadsEndAt(CachesAfterSetCrs(start, value, backend), applied.value, k, backend)
                           && States() == ReadStates(mid, applied.value[..k], backend)
      ensures MembersFrom(start, value, todo, backend)
    {
      assert forall k :: !FirstSetCrsFailure(todo, k, value, backend);
      SetStatesSame(start, CachesAfterSetCrs(start, value, backend), done, todo);
    }

    /** After `set_crs`, every member it handled holds the cache `CachesAfterSetCrs` gives it. */
    lemma CachesHeld(start: map<string, MemberState>, done: seq<string>, value: CrsCache, backend: Backend)
      requires start.Keys == variables.Keys && AppliedFrom(start, done, value, backend)
      ensures forall n :: n in done ==> n in CachesAfterSetCrs(start, value, backend)
                                        && variables[n].crs == CachesAfterSetCrs(start, value, backend)[n]
    {
    }

    /** `set_crs` followed by the read loop is `ObjectsFrom`. */
    lemma ObjectsFromOutcome(start: map<string, MemberState>, value: CrsCache, todo: seq<string>, backend: Backend,
                             applied: Result<seq<string>, GeoError>, done: seq<string>, parses: seq<string>,
                             r: Result<map<string, Option<Crs>>, GeoError>)
      requires start.Keys == variables.Keys && SetCrsOutcome(todo, value, backend, applied, done, parses)
      requires applied.Err? ==> r == Err(applied.error)
      requires applied.Ok? ==> ReadsFrom(CachesAfterSetCrs(start, value, backend), applied.value, backend, r)
      ensures ObjectsFrom(start, value, todo, backend, r)
    {
    }

    /** The loop of `_set_crs_objects`: each named variable's resolved `crs`, stopping at the first that raises. */
    method ResolveAll(order: seq<string>, backend: Backend, ghost caches: map<string, CrsCache>,
                      ghost start: map<string, MemberState>)
      returns (r: Result<map<string, Option<Crs>>, GeoError>)
      requires Valid() && Distinct(order) && start == States()
      requires forall n :: n in order ==> n in variables && n in caches && variables[n].crs == caches[n]
      modifies variables.Values
      ensures Valid()
      ensures ResolvedFrom(caches, order, backend, r)
      ensures exists k :: ReadsEndAt(caches, order, k, backend) && States() == ReadStates(start, order[..k], backend)
      ensures r.Err? ==> r.error == CrsParseError || r.error == UnboundCrs
      ensures order == [] ==> r.Ok?
      ensures forall n :: n in variables ==> variables[n].Bindings() == old(variables[n].Bindings()) && variables[n].dimMap == old(variables[n].dimMap)
    {
      var objects: map<string, Option<Crs>> := map[];
      assert ReadStates(start, order[..0], backend) == start;
      for i := 0 to |order|
        invariant ReadLoop(caches, order, i, backend, objects)
        invariant States() == ReadStates(start, order[..i], backend)
      {
        var c, objectsAfter;
        c, objectsAfter := ReadStep(caches, order, i, backend, objects, start);
        if c.Err? {
          ReadStops(caches, order, i, backend, objects);
          ReadStatesKeepDims(start, order[..i + 1], backend);
          return Err(c.error);
        }
        objects := objectsAfter;
      }
      ReadCompletes(caches, order, backend, objects);
      ReadStatesKeepDims(start, order, backend);
      r := Ok(objects);
    }

    /** The loop stops at the first read that raises, with its error. */
    lemma ReadStops(caches: map<string, CrsCache>, order: seq<string>, i: int, backend: Backend,
                    objects: map<string, Option<Crs>>)
      requires ReadSoFar(caches, order, i, backend, objects)
      requires i < |order| && ReadOf(caches, order[i], backend).Err?
      ensures ReadsFrom(caches, order, backend, Err(ReadOf(caches, order[i], backend).error))
      ensures ReadsEndAt(caches, order, i + 1, backend)
    {
      assert FirstReadFailure(caches, order, i, backend);
    }

    /** A loop that read every member returns each one's read. */
    lemma ReadCompletes(caches: map<string, CrsCache>, order: seq<string>, backend: Backend,
                        objects: map<string, Option<Crs>>)
      requires ReadSoFar(caches, order, |order|, backend, objects)
      ensures ReadsFrom(caches, order, backend, Ok(objects))
      ensures ReadsEndAt(caches, order, |order|, backend) && order[..|order|] == order
    {
      assert order[..|order|] == order;
    }

    /**
     * The state of the `_set_crs_objects` loop once it has read `order[..i]`:
     * `objects` maps each of them to what its read returned, now its view,
     * and the members not yet read still hold the caches `caches`.
     */
    ghost predicate ReadLoop(caches: map<string, CrsCache>, order: seq<string>, i: int, backend: Backend,
                             objects: map<string, Option<Crs>>)
      reads variables.Values
    {
      && Valid() && ReadSoFar(caches, order, i, backend, objects)
      && forall n :: n in order ==>
           if n in objects then variables[n].crs != Unresolved && objects[n] == View(variables[n].crs)
           else variables[n].crs == caches[n]
    }

    /** The part of `ReadLoop` that does not depend on the members' state. */
    ghost predicate ReadSoFar(caches: map<string, CrsCache>, order: seq<string>, i: int, backend: Backend,
                              objects: map<string, Option<Crs>>)
    {
      && Distinct(order) && 0 <= i <= |order|
      && (forall n :: n in order ==> n in variables && n in caches)
      && (forall n :: n in objects <==> n in order[..i])
      && (forall j :: 0 <= j < i ==> ReadOf(caches, order[j], backend).Ok?)
      && (forall n :: n in objects ==> objects[n] == ReadOf(caches, n, backend).value)
    }

    /** A read that does not raise extends `ReadSoFar` by one name. */
    lemma ReadSoFarStep(caches: map<string, CrsCache>, order: seq<string>, i: int, backend: Backend,
                        objects: map<string, Option<Crs>>)
      requires i < |order| && ReadSoFar(caches, order, i, backend, objects)
      requires ReadOf(caches, order[i], backend).Ok?
      ensures order[i] !in objects
      ensures ReadSoFar(caches, order, i + 1, backend, objects[order[i] := ReadOf(caches, order[i], backend).value])
    {
      assert order[..i + 1] == order[..i] + [order[i]];
    }

    /** One turn of the `_set_crs_objects` loop: read `order[i]`, stopping when the read raises. */
    method ReadStep(ghost caches: map<string, CrsCache>, order: seq<string>, i: int, backend: Backend,
                    objects: map<string, Option<Crs>>, ghost start: map<string, MemberState>)
      returns (c: Result<Option<Crs>, GeoError>, objectsAfter: map<string, Option<Crs>>)
      requires i < |order| && ReadLoop(caches, order, i, backend, objects)
      requires States() == ReadStates(start, order[..i], backend)
      modifies variables[order[i]]
      ensures Valid()
      ensures States() == ReadStates(start, order[..i + 1], backend)
      ensures c.Ok? ==> ReadLoop(caches, order, i + 1, backend, objectsAfter)
      ensures c.Err? ==> FirstReadFailure(caches, order, i, backend) && c == ReadOf(caches, order[i], backend)
    {
      c := ReadOne(order[i], backend);
      ReadStatesSnoc(start, order, i, backend);
      objectsAfter := objects;
      if c.Ok? {
        ReadSoFarStep(caches, order, i, backend, objects);
        objectsAfter := objects[order[i] := c.value];
      }
    }

    /** Member `n`'s `crs` property, read from the Dataset: only that member's state changes, as `AfterRead` says. */
    method ReadOne(n: string, backend: Backend) returns (c: Result<Option<Crs>, GeoError>)
      requires Valid() && n in variables
      modifies variables[n]
      ensures Valid()
      ensures c == CrsRead(old(variables[n].crs), variables[n].obj, backend)
      ensures c.Ok? ==> variables[n].crs != Unresolved && c.value == View(variables[n].crs)
      ensures variables[n].Bindings() == old(variables[n].Bindings()) && variables[n].dimMap == old(variables[n].dimMap)
      ensures States() == old(States())[n := AfterRead(old(States())[n], variables[n].obj, backend)]
    {
      ghost var before := States();
      c := Resolve(variables[n], backend);
      forall m | m in variables && m != n
        ensures StateOf(variables[m]) == before[m]
      {
        assert variables[m] != variables[n];
      }
    }

    /** Reads leave every member's dimension bindings and role map as they were. */
    lemma ReadStatesKeepDims(start: map<string, MemberState>, read: seq<string>, backend: Backend)
      requires States() == ReadStates(start, read, backend)
      ensures forall n :: n in variables ==>
                StateOf(variables[n]).bindings == start[n].bindings && StateOf(variables[n]).dimMap == start[n].dimMap
    {
      forall n | n in variables
        ensures StateOf(variables[n]).bindings == start[n].bindings && StateOf(variables[n]).dimMap == start[n].dimMap
      {
        assert States()[n] == StateOf(variables[n]);
      }
    }

    /** Reading one more name extends `ReadStates` by that member's read. */
    lemma ReadStatesSnoc(start: map<string, MemberState>, order: seq<string>, i: int, backend: Backend)
      requires Distinct(order) && 0 <= i < |order| && order[i] in start && order[i] in variables
      ensures order[i] !in order[..i]
      ensures ReadStates(start, order[..i + 1], backend)
              == ReadStates(start, order[..i], backend)[order[i] := AfterRead(start[order[i]], variables[order[i]].obj, backend)]
    {
      assert order[..i + 1] == order[..i] + [order[i]];
    }

    /** Every member's CRS cache is resolved. */
    ghost predicate AllResolved()
      reads variables.Values
    {
      forall n :: n in variables ==> variables[n].crs != Unresolved
    }

    /** The distinct values the members' `crs` properties return. */
    ghost function MemberViews(): set<Option<Crs>>
      reads variables.Values
    {
      set n | n in variables :: View(variables[n].crs)
    }

    /**
     * What resolving every member decides: one distinct value is the result,
     * two or more raise "more than one CRS", and "No CRS information found" is
     * raised exactly for a Dataset without variables.
     */
    ghost predicate Decided(r: Result<Option<Crs>, GeoError>)
      reads variables.Values
    {
      && (r.Ok? ==> AllResolved() && MemberViews() == {r.value})
      && (r == Err(MoreThanOneCrs) ==> AllResolved() && |MemberViews()| >= 2)
      && (r == Err(NoCrsFound) <==> names == [])
    }

    /** No member's dimension bindings or role map changed. */
    twostate predicate DimsKept()
      reads variables.Values
    {
      forall n :: n in variables ==> variables[n].Bindings() == old(variables[n].Bindings()) && variables[n].dimMap == old(variables[n].dimMap)
    }

    /** The values collected per variable are the members' views, so the decision on them is the decision on the members. */
    lemma CollectedViews(objects: map<string, Option<Crs>>, r: Result<Option<Crs>, GeoError>)
      requires Valid()
      requires forall n :: n in objects <==> n in names
      requires forall n :: n in objects ==> variables[n].crs != Unresolved && objects[n] == View(variables[n].crs)
      requires r.Ok? ==> objects.Values == {r.value}
      requires r == Err(MoreThanOneCrs) <==> |objects.Values| >= 2
      requires r == Err(NoCrsFound) <==> objects.Values == {}
      ensures Decided(r)
    {
      assert objects.Values == MemberViews();
      if names != [] {
        assert objects[names[0]] in objects.Values;
      }
    }

    /** The unheld branch of the `crs` property: resolve every member, then decide on the distinct values. */
    method ResolveViews(backend: Backend) returns (r: Result<Option<Crs>, GeoError>)
      requires Valid()
      modifies variables.Values
      ensures Valid() && Decided(r) && DimsKept()
      ensures DatasetCrsFrom(old(States()), backend, r)
      ensures MembersFrom(old(States()), Unresolved, names, backend)
    {
      ghost var start := States();
      var objects := CrsObjects(Unresolved, None, backend);
      if objects.Err? {
        r := Err(objects.error);
      } else {
        r := Aggregate(objects.value.Values);
        CollectedViews(objects.value, r);
      }
      DecidedFromReads(start, backend, objects, r);
    }

    /** The decision `ResolveViews` takes on what `_set_crs_objects` returned is `DatasetCrsFrom`. */
    lemma DecidedFromReads(start: map<string, MemberState>, backend: Backend,
                           objects: Result<map<string, Option<Crs>>, GeoError>, r: Result<Option<Crs>, GeoError>)
      requires Shaped() && start.Keys == variables.Keys
      requires ObjectsFrom(start, Unresolved, names, backend, objects)
      requires objects.Err? ==> r == Err(objects.error)
      requires objects.Ok? ==> DecidedOn(objects.value.Values, r)
      ensures DatasetCrsFrom(start, backend, r)
    {
      var caches := CachesAfterSetCrs(start, Unresolved, backend);
      if exists k :: FirstSetCrsFailure(names, k, Unresolved, backend) {
        var k :| FirstSetCrsFailure(names, k, Unresolved, backend) && objects == Err(SetCrsError(names[k]));
        assert names[k] in variables;
      } else {
        DedupDistinct(names);
        assert forall n :: n in names ==> n in start && n in variables;
        if objects.Ok? {
          assert forall k :: !FirstReadFailure(caches, names, k, backend);
          ReadValues(caches, objects.value, backend);
        }
      }
    }

    /** The values of a map holding every member's read are the distinct values read. */
    lemma ReadValues(caches: map<string, CrsCache>, objects: map<string, Option<Crs>>, backend: Backend)
      requires forall n :: n in names ==> n in variables && n in caches
      requires forall n :: n in objects <==> n in names
      requires forall n :: n in names ==> ReadOf(caches, n, backend).Ok? && objects[n] == ReadOf(caches, n, backend).value
      ensures objects.Values ==
              set n | n in names && n in variables && n in caches && ReadOf(caches, n, backend).Ok? :: ReadOf(caches, n, backend).value
    {
      var read := set n | n in names && n in variables && n in caches && ReadOf(caches, n, backend).Ok? :: ReadOf(caches, n, backend).value;
      forall x | x in objects.Values
        ensures x in read
      {
        var n :| n in objects && objects[n] == x;
      }
      forall x | x in read
        ensures x in objects.Values
      {
        var n :| n in names && n in variables && n in caches && ReadOf(caches, n, backend).Ok? && ReadOf(caches, n, backend).value == x;
        assert objects[n] == x;
      }
    }

    /**
     * The `crs` property: a held CRS is returned as it is; otherwise every
     * variable's CRS is resolved and the distinct values decide (see
     * `Decided`); a single value is held unless it is None.
     */
    method ReadCrs(backend: Backend) returns (r: Result<Option<Crs>, GeoError>)
      requires Valid()
      modifies this, variables.Values
      ensures Valid() && DimsKept()
      ensures old(crs) != Unresolved ==> r == Ok(View(old(crs))) && crs == old(crs) && unchanged(variables.Values)
      ensures old(crs) == Unresolved ==> Decided(r) && DatasetCrsFrom(old(States()), backend, r)
      ensures old(crs) == Unresolved ==> MembersFrom(old(States()), Unresolved, names, backend)
      ensures old(crs) == Unresolved && r.Err? ==> crs == Unresolved
      ensures old(crs) == Unresolved && r.Ok? ==> crs == (if r.value.Some? then Present(r.value.value) else Unresolved)
    {
      if crs.Absent? {
        return Ok(None);
      } else if crs.Present? {
        return Ok(Some(crs.crs));
      }
      r := ResolveViews(backend);
      if r.Ok? {
        crs := if r.value.Some? then Present(r.value.value) else Unresolved;
      }
    }
  }
}
