/**
 * The `.geo` accessor of an xarray DataArray: four role bindings, the role
 * map cached in three states, and the CRS cached in three states.
 */
module DataArrayAccessor {
  import opened Util
  import opened DimRoles
  import opened GeoTypes

  /** The `_dim_map` cache: False (never computed), None (stale), or the built dict. */
  datatype DimMapCache = NeverComputed | Stale | Built(m: map<string, string>)

  class GeoDataArrayAccessor {
    /** The wrapped DataArray; the accessor never changes it. */
    const obj: DataArray

    var xDim: Option<string>
    var yDim: Option<string>
    var verticalDim: Option<string>
    var timeDim: Option<string>
    var dimMap: DimMapCache
    var crs: CrsCache
    var isGridded: Option<bool>
    /** How many "'grid_mapping' attribute found" warnings this accessor has emitted. */
    ghost var warnings: nat

    function Bindings(): RoleBindings
      reads this
    {
      RoleBindings(xDim, yDim, verticalDim, timeDim)
    }

    /**
     * Every bound role names a dimension of the array, and a built role map
     * only has such dimensions as keys and role names as values.
     */
    ghost predicate Valid()
      reads this
    {
      && obj.WellFormed()
      && BoundWithin(Bindings(), obj.dims)
      && (dimMap.Built? ==> (forall n :: n in dimMap.m ==> n in obj.dims) && dimMap.m.Values <= RoleNames)
    }

    /** `__init__`: everything unbound, then `set_dims()` infers what it can. */
    constructor (obj: DataArray)
      requires obj.WellFormed()
      ensures Valid() && this.obj == obj
      ensures Bindings() == SetDimsSpec(Unbound, Unbound, obj.dims).roles
      ensures dimMap == Stale && crs == Unresolved && isGridded == None && warnings == 0
    {
      this.obj := obj;
      xDim, yDim, verticalDim, timeDim := None, None, None, None;
      dimMap := NeverComputed;
      crs := Unresolved;
      isGridded := None;
      warnings := 0;
      new;
      SetDimsNoArgsCompletes(Unbound, obj.dims);
      var status := SetDims(None, None, None, None);
    }

    /**
     * `set_dims`: the roles x, y, vertical, time in turn; an explicit name must
     * be a dimension (else AssertionError, leaving earlier roles rebound and the
     * role map as it was) and binds its role; otherwise an unbound role takes
     * its first present candidate. A completed call marks the role map stale.
     */
    method SetDims(x: Option<string>, y: Option<string>, vertical: Option<string>, time: Option<string>)
      returns (status: Outcome<GeoError>)
      requires Valid()
      modifies this
      ensures Valid()
      ensures var out := SetDimsSpec(old(Bindings()), RoleBindings(x, y, vertical, time), obj.dims);
              && Bindings() == out.roles
              && (out.Completed? ==> status == Pass && dimMap == Stale)
              && (out.Failed? ==> status == Fail(DimensionNotFound(RoleBindings(x, y, vertical, time).Get(out.failedRole).value))
                                  && dimMap == old(dimMap))
      ensures crs == old(crs) && isGridded == old(isGridded) && warnings == old(warnings)
    {
      ghost var explicit := RoleBindings(x, y, vertical, time);
      ghost var start := Bindings();
      SetDimsBindsWithin(start, explicit, obj.dims);
      assert RoleOrder[1..] == [Y, Vertical, Time];
      assert RoleOrder[1..][1..] == [Vertical, Time];
      assert RoleOrder[1..][1..][1..] == [Time];
      assert RoleOrder[1..][1..][1..][1..] == [];

      var ok := BindRole(X, x);
      if !ok {
        return Fail(DimensionNotFound(x.value));
      }
      assert SetDimsSpec(start, explicit, obj.dims) == ApplyRoles([Y, Vertical, Time], Bindings(), explicit, obj.dims);
      ok := BindRole(Y, y);
      if !ok {
        return Fail(DimensionNotFound(y.value));
      }
      assert SetDimsSpec(start, explicit, obj.dims) == ApplyRoles([Vertical, Time], Bindings(), explicit, obj.dims);
      ok := BindRole(Vertical, vertical);
      if !ok {
        return Fail(DimensionNotFound(vertical.value));
      }
      assert SetDimsSpec(start, explicit, obj.dims) == ApplyRoles([Time], Bindings(), explicit, obj.dims);
      ok := BindRole(Time, time);
      if !ok {
        return Fail(DimensionNotFound(time.value));
      }
      assert SetDimsSpec(start, explicit, obj.dims) == Completed(Bindings());
      dimMap := Stale;
      status := Pass;
    }

    /**
     * One role's block of `set_dims`: with no explicit name an unbound role
     * takes the first candidate among the dimensions; an explicit name must be
     * a dimension (`ok` false: the assertion fails, nothing changes) and binds
     * the role.
     */
    method BindRole(role: Role, explicit: Option<string>) returns (ok: bool)
      modifies this
      ensures var step := StepRole(old(Bindings()).Get(role), explicit, obj.dims, Candidates(role));
              && ok == step.Some?
              && Bindings() == (if ok then old(Bindings()).With(role, step.value) else old(Bindings()))
      ensures dimMap == old(dimMap) && crs == old(crs) && isGridded == old(isGridded) && warnings == old(warnings)
    {
      var bound: Option<string>;
      if explicit.None? && Bindings().Get(role).None? {
        bound := FindFirstPresent(Candidates(role), obj.dims);
      } else if explicit.Some? {
        if explicit.value !in obj.dims {
          return false;
        }
        bound := explicit;
      } else {
        bound := Bindings().Get(role);
      }
      ok := true;
      match role {
        case X => xDim := bound;
        case Y => yDim := bound;
        case Vertical => verticalDim := bound;
        case Time => timeDim := bound;
      }
    }

    /**
     * The `dim_map` property: a never-computed map first runs `set_dims()`; a
     * stale map is rebuilt from exactly the bound roles; a built map is
     * returned as cached.
     */
    method DimMap() returns (m: map<string, string>)
      requires Valid()
      modifies this
      ensures Valid() && dimMap == Built(m)
      ensures old(dimMap).Built? ==> m == old(dimMap).m && Bindings() == old(Bindings())
      ensures old(dimMap).Stale? ==> m == RoleMap(Bindings()) && Bindings() == old(Bindings())
      ensures old(dimMap).NeverComputed? ==>
                Bindings() == SetDimsSpec(old(Bindings()), Unbound, obj.dims).roles && m == RoleMap(Bindings())
      ensures crs == old(crs) && isGridded == old(isGridded) && warnings == old(warnings)
    {
      if dimMap.NeverComputed? {
        SetDimsNoArgsCompletes(Bindings(), obj.dims);
        var status := SetDims(None, None, None, None);
      }
      if dimMap.Stale? {
        var built: map<string, string> := map[];
        if xDim.Some? {
          built := built[xDim.value := "x"];
        }
        if yDim.Some? {
          built := built[yDim.value := "y"];
        }
        if verticalDim.Some? {
          built := built[verticalDim.value := "vertical"];
        }
        if timeDim.Some? {
          built := built[timeDim.value := "time"];
        }
        assert built == RoleMap(Bindings());
        forall n | n in built ensures n in obj.dims {
          assert LastRoleOf(Bindings(), n).Some?;
        }
        dimMap := Built(built);
      }
      m := dimMap.m;
    }

    /** The `dims` property: the physical dimensions in order, renamed through the role map. */
    method Dims() returns (names: seq<string>)
      requires Valid()
      modifies this
      ensures Valid()
      ensures |obj.dims| == 0 ==> names == [] && dimMap == old(dimMap) && Bindings() == old(Bindings())
      ensures |obj.dims| > 0 ==> dimMap.Built? && names == PreferredDims(obj.dims, dimMap.m)
      ensures |obj.dims| > 0 && old(dimMap).Built? ==> dimMap == old(dimMap) && Bindings() == old(Bindings())
      ensures |obj.dims| > 0 && old(dimMap).Stale? ==> dimMap.m == RoleMap(Bindings()) && Bindings() == old(Bindings())
      ensures |obj.dims| > 0 && old(dimMap).NeverComputed? ==>
                Bindings() == SetDimsSpec(old(Bindings()), Unbound, obj.dims).roles && dimMap.m == RoleMap(Bindings())
      ensures crs == old(crs) && isGridded == old(isGridded) && warnings == old(warnings)
    {
      // the renaming reads `dim_map` once per dimension, so never for a 0-d array
      if |obj.dims| == 0 {
        return [];
      }
      var m := DimMap();
      names := PreferredDims(obj.dims, m);
    }

    /** The `sizes` property: each physical extent under its renamed dimension name. */
    method Sizes() returns (sizes: map<string, nat>)
      requires Valid()
      modifies this
      ensures Valid()
      ensures |obj.dims| == 0 ==> sizes == map[] && dimMap == old(dimMap) && Bindings() == old(Bindings())
      ensures |obj.dims| > 0 ==> dimMap.Built? && sizes.Keys == set i | 0 <= i < |obj.dims| :: Rename(dimMap.m, obj.dims[i])
      ensures |obj.dims| > 0 ==>
                forall i :: 0 <= i < |obj.dims| && (forall j :: i < j < |obj.dims| ==> Rename(dimMap.m, obj.dims[j]) != Rename(dimMap.m, obj.dims[i]))
                            ==> sizes[Rename(dimMap.m, obj.dims[i])] == obj.shape[i]
      ensures |obj.dims| > 0 ==>
                forall i :: 0 <= i < |obj.dims| && Distinct(PreferredDims(obj.dims, dimMap.m)) ==>
                  sizes[PreferredDims(obj.dims, dimMap.m)[i]] == obj.shape[i]
      ensures |obj.dims| > 0 && old(dimMap).Built? ==> dimMap == old(dimMap) && Bindings() == old(Bindings())
      ensures |obj.dims| > 0 && old(dimMap).Stale? ==> dimMap.m == RoleMap(Bindings()) && Bindings() == old(Bindings())
      ensures |obj.dims| > 0 && old(dimMap).NeverComputed? ==>
                Bindings() == SetDimsSpec(old(Bindings()), Unbound, obj.dims).roles && dimMap.m == RoleMap(Bindings())
      ensures crs == old(crs) && isGridded == old(isGridded) && warnings == old(warnings)
    {
      // the loop reads `dim_map` in its body, so never for a 0-d array
      if |obj.dims| == 0 {
        return map[];
      }
      var m := DimMap();
      sizes := RenameSizes(obj.dims, obj.shape, m);
    }

    /**
     * The `crs` getter: a resolved cache is returned as it is, with no search
     * and no warning; an unresolved one runs one search pass, which warns once
     * when a truthy `grid_mapping` attribute exists, caches a found CRS, caches
     * False when nothing is found, and leaves the cache unresolved when the
     * pass raises.
     */
    method ReadCrs(backend: Backend) returns (r: Result<Option<Crs>, GeoError>)
      requires Valid()
      modifies this
      ensures Valid()
      ensures old(crs) != Unresolved ==> r == Ok(View(old(crs))) && crs == old(crs)
                                         && isGridded == old(isGridded) && warnings == old(warnings)
      ensures old(crs) == Unresolved ==>
                && warnings == old(warnings) + (if WarnsGridMapping(obj) then 1 else 0)
                && match SearchCrs(obj, backend)
                   case Found(c) => r == Ok(Some(c)) && crs == Present(c) && isGridded == old(isGridded)
                   case NotFound => r == Ok(None) && crs == Absent && isGridded == old(isGridded)
                   case ParseFailed => r == Err(CrsParseError) && crs == Unresolved && isGridded == old(isGridded)
                   case SwathUnbound => r == Err(UnboundCrs) && crs == Unresolved && isGridded == Some(false)
      ensures r.Ok? ==> crs != Unresolved && r.value == View(crs)
      ensures r == CrsRead(old(crs), obj, backend)
      ensures Bindings() == old(Bindings()) && dimMap == old(dimMap)
    {
      if crs.Absent? {
        return Ok(None);
      } else if crs.Present? {
        return Ok(Some(crs.crs));
      }
      if Truthy(obj.Attr("grid_mapping")) {
        warnings := warnings + 1;
      }
      var search := SearchCrs(obj, backend);
      match search
      case Found(c) =>
        crs := Present(c);
        r := Ok(Some(c));
      case NotFound =>
        crs := Absent;
        r := Ok(None);
      case ParseFailed =>
        r := Err(CrsParseError);
      case SwathUnbound =>
        isGridded := Some(false);
        r := Err(UnboundCrs);
    }

    /** The `crs` setter: the cache takes the value as given; None forces a new search. */
    method SetCrs(value: CrsCache)
      requires Valid()
      modifies this
      ensures Valid() && crs == value
      ensures Bindings() == old(Bindings()) && dimMap == old(dimMap)
      ensures isGridded == old(isGridded) && warnings == old(warnings)
    {
      crs := value;
    }

    /**
     * `set_cf_grid_mapping`: the CRS cache becomes what the CF parser makes
     * of the given attributes (a grid-mapping variable's attrs, or a dict of
     * them); when the parse raises, nothing changes.
     */
    method SetCfGridMapping(source: GridMappingSource, backend: Backend) returns (r: Outcome<GeoError>)
      requires Valid()
      modifies this
      ensures Valid()
      ensures r.Pass? <==> backend.fromCf(source.Attrs()).Some?
      ensures r.Pass? ==> crs == Present(backend.fromCf(source.Attrs()).value)
                          && CrsRead(crs, obj, backend) == Ok(backend.fromCf(source.Attrs()))
      ensures r.Fail? ==> r.error == CrsParseError && crs == old(crs)
      ensures Bindings() == old(Bindings()) && dimMap == old(dimMap)
      ensures isGridded == old(isGridded) && warnings == old(warnings)
    {
      match backend.fromCf(source.Attrs())
      case None =>
        r := Fail(CrsParseError);
      case Some(c) =>
        crs := Present(c);
        r := Pass;
    }
  }

  /** The argument of `set_cf_grid_mapping`: a grid-mapping variable, or a dict of CF attributes. */
  datatype GridMappingSource = Variable(gridMapping: DataArray) | AttrsDict(attrs: map<string, AttrValue>)
  {
    /** The attributes handed to the CF parser: a variable's attrs, or the dict itself. */
    function Attrs(): map<string, AttrValue>
    {
      if Variable? then gridMapping.attrs else attrs
    }
  }

  /** The candidate loop of `set_dims`: the first candidate that is a dimension, if any. */
  method FindFirstPresent(candidates: seq<string>, dims: seq<string>) returns (found: Option<string>)
    ensures found == FirstPresent(candidates, dims)
  {
    found := None;
    var k := 0;
    while k < |candidates|
      invariant 0 <= k <= |candidates|
      invariant FirstPresent(candidates, dims) == FirstPresent(candidates[k..], dims)
    {
      assert candidates[k..][1..] == candidates[k + 1..];
      if candidates[k] in dims {
        found := Some(candidates[k]);
        return;
      }
      k := k + 1;
    }
  }

  /**
   * Reading `crs` twice: once the first read succeeds, the second returns the
   * same value without searching or warning again.
   */
  method ReadCrsTwice(a: GeoDataArrayAccessor, backend: Backend)
    returns (first: Result<Option<Crs>, GeoError>, second: Result<Option<Crs>, GeoError>)
    requires a.Valid()
    modifies a
    ensures first.Ok? ==> second == first && a.warnings == old(a.warnings) + (if old(a.crs) == Unresolved && WarnsGridMapping(a.obj) then 1 else 0)
  {
    first := a.ReadCrs(backend);
    second := a.ReadCrs(backend);
  }
}
