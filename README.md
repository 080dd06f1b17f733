# geoxarray accessors and the PROJ-to-Cartopy bridge, in Dafny

This project models the `.geo` accessors that geoxarray attaches to xarray
objects.

**The DataArray accessor** keeps four role bindings: which physical dimension
plays x, y, vertical and time.
- `set_dims` fills them by two rules. An explicit name must be one of the
  array's dimensions, and then binds its role. Without one, an unbound role
  takes the first present candidate and a bound role keeps its binding.
- It caches the role map (physical name to role name) in three states:
  never computed, stale, or built.
- It presents `dims` and `sizes` renamed through that map.
- It resolves the CRS once, in priority order: the `crs` coordinate, then the
  `crs` attribute, then a pyresample AreaDefinition. It caches the result in
  three states: unresolved, absent, or present.

**The Dataset accessor** passes `set_dims` on to its variables, keeping for
each variable only the names it has. Its `set_crs` distributes CRS values:
- a forced value goes to every requested variable;
- otherwise, a variable whose `grid_mapping` names a Dataset variable gets the
  CRS parsed from that variable's attributes, parsed once per name.

Its `crs` folds the distinct member CRS values into one, or raises.

**The Cartopy bridge** handles a parsed PROJ parameter dict:
- it splits the dict into Globe keywords, renamed through a fixed table, and
  the other projection terms;
- it derives `x_limits`, `y_limits` and the closed `boundary` ring from the
  bounds.

Modules:

- `Util` (util.dfy): `Option`, `Result`, `Outcome`, `Distinct`.
- `DimRoles` (dim_roles.dfy): the role rules of `set_dims` as functions on
  values, the role map and the renamed views, with their lemmas.
- `GeoTypes` (geo_types.dfy): the DataArray as the accessor sees it, attribute
  values, the CRS, the parsers (`Backend`), the CRS cache, and the CRS search
  of one resolution pass.
- `DataArrayAccessor` (data_array_accessor.dfy): the DataArray accessor as a
  class whose methods update its fields.
- `DatasetAccessor` (dataset_accessor.dfy): the Dataset accessor as a class
  over a map from variable name to member accessor object.
- `CartopyProj` (cartopy_proj.dfy): `_GLOBE_PARAMS`, `_globe_from_proj4`, the
  term split and the bounds of `_PROJ4Projection`.

The model follows the code, not its tests or documentation, in these places:

- There is no positional `(y, x)` fallback. On dimensions `("b", "a")` nothing
  is bound and `dims` stays `("b", "a")`. `DimRoles.NoRowMajorFallback` states
  this. geoxarray/tests/test_accessor/test_accessor_data_arr.py:39 expects
  `("y", "x")`.
- A failed `assert` in `set_dims` keeps the roles already rebound. It also
  leaves the role map as it was, because line 251 is never reached.
- After the SwathDefinition branch, `crs` is unassigned. The getter then
  raises (`UnboundCrs`), with `_is_gridded` set to False and the cache still
  unresolved.
- The Dataset `set_dims` changes the member accessors and returns nothing.
  geoxarray/tests/test_accessor/test_accessor_dataset.py:27 expects a new
  Dataset.
- The Dataset `crs` raises "No CRS information found" only for a Dataset
  without variables. When every member's CRS is None, the result is None and
  nothing is cached.

## Model

| member | source | states |
|---|---|---|
| DimRoles.FirstPresent | geoxarray/accessor.py:234-237 | the result is the first candidate that is a dimension, with no earlier candidate present; it is None exactly when no candidate is a dimension |
| DimRoles.StepRole | geoxarray/accessor.py:219-237 | one role's block fails exactly when its explicit name is not a dimension; otherwise an explicit name wins, a bound role without one is kept, and an unbound role takes the first candidate present among the dimensions, staying unbound exactly when none is; a result bound from within the dimensions stays within them |
| DimRoles.ApplyRolesOutcome | geoxarray/accessor.py:219-249 | applying roles in order fails only at a visited role whose explicit name is not a dimension; a completed pass met no such role and bound every visited role that has an explicit name to that name; roles not visited keep their binding |
| DimRoles.ApplyRolesFailure | geoxarray/accessor.py:219-249 | applying the roles in order fails exactly when some explicit name is not a dimension, and it fails at the first such role |
| DimRoles.ApplyRolesAt | geoxarray/accessor.py:219-249 | a role reached before any failed assertion takes its one-role rule's value; a role after the failure, or not visited, keeps its binding |
| DimRoles.SetDimsFailsIff | geoxarray/accessor.py:219-249 | `set_dims` raises exactly when an explicit name is missing from the dimensions, at the first such role in x, y, vertical, time order |
| DimRoles.SetDimsExplicitWins | geoxarray/accessor.py:219-249 | after a completed `set_dims`, every role given explicitly is bound to the name given |
| DimRoles.SetDimsRoleRules | geoxarray/accessor.py:219-249 | after a completed call, an explicit name binds its role and overwrites an earlier binding; a bound role with no explicit name is kept; an unbound one takes its first present candidate (x: "x"; y: "y"; vertical: "z", "vertical", "pressure_level"; time: "time", "t") or stays unbound |
| DimRoles.SetDimsKeepsBound | geoxarray/accessor.py:219-246 | without an explicit name a bound role survives any call, even one that raises |
| DimRoles.SetDimsPartialFailure | geoxarray/accessor.py:219-251 | a failed call leaves the roles before the failing one rebound and the failing and later roles untouched |
| DimRoles.SetDimsNoArgsCompletes | geoxarray/accessor.py:219-249 | `set_dims()` with no arguments never raises |
| DimRoles.SetDimsIdempotent | geoxarray/accessor.py:219-246 | a second `set_dims()` with no arguments leaves the four bindings as the first left them |
| DimRoles.SetDimsBindsWithin | geoxarray/accessor.py:219-249 | bindings that name dimensions of the array still do after any call |
| DimRoles.CollisionInferred | geoxarray/accessor.py:219-246 | on dimensions ("x", "a") with nothing bound, inference binds only x, to "x" |
| DimRoles.CollisionRebound | geoxarray/accessor.py:222-224 | an explicit x = "a" then moves x to "a" and leaves the other roles unbound |
| DimRoles.NoRowMajorFallback | geoxarray/accessor.py:219-249 | on dimensions ("b", "a") no role is bound, so the renamed dims stay ("b", "a"); nothing is inferred from position |
| DimRoles.LastRoleOf | geoxarray/accessor.py:179-187 | the role found binds the name and no later role in x, y, vertical, time order binds it; None exactly when no role binds it |
| DimRoles.RoleMap | geoxarray/accessor.py:179-187 | the built map's keys are exactly the bound names; each maps to the name of the last role bound to it; every value is one of x, y, vertical, time |
| DimRoles.RoleMapLastWins | geoxarray/accessor.py:179-187 | every bound name is a key, and a role whose name no later role shares maps that name to its own role name |
| DimRoles.RoleMapInjective | geoxarray/accessor.py:179-187 | two distinct physical names never map to the same role name |
| DimRoles.PreferredDims | geoxarray/accessor.py:253-256 | `dims` has the length of the physical dims, and each position holds that dimension's role name when it is a key and the name itself otherwise |
| DimRoles.PreferredDimsDistinct | geoxarray/accessor.py:253-256 | a sufficient condition: the renamed dims stay distinct when no dimension left unrenamed is itself called like a role that another dimension takes |
| DimRoles.PreferredDimsCollision | geoxarray/accessor.py:253-256 | the renamed dims can repeat a name: ("x", "a") with x then bound to "a" reports ("x", "x") |
| DimRoles.RenameSizes | geoxarray/accessor.py:258-265 | `sizes` has exactly the renamed names as keys; each extent sits under its renamed key unless a later dimension has the same key; with distinct renamed dims every extent is kept |
| GeoTypes.SearchCrs | geoxarray/accessor.py:282-298 | one clause per priority level: a `crs` coordinate decides through the user-input parser; without one, a non-None `crs` attribute decides the same way; without either, an AreaDefinition decides by its `crs` when it has one and by parsing its PROJ dict otherwise; nothing is found exactly when none of these and no swath exist; the swath case is exactly an unassigned result |
| GeoTypes.CoordsCrsFirst | geoxarray/accessor.py:282-286 | when a `crs` coordinate exists, no attribute changes the outcome |
| GeoTypes.AttrsCrsBeforeArea | geoxarray/accessor.py:283-293 | without a `crs` coordinate, a non-None `crs` attribute decides the outcome whatever the `area` attribute holds |
| GeoTypes.CrsRead | geoxarray/accessor.py:267-301 | what the `crs` getter returns from a cache: a resolved cache gives its view; an unresolved one gives the CRS the search finds, None when it finds nothing, a parse error exactly when a parser raises and the unbound error exactly in the swath case |
| DataArrayAccessor.GeoDataArrayAccessor.constructor | geoxarray/accessor.py:158-169 | a new accessor holds the bindings that `set_dims()` infers from nothing bound, a stale role map, an unresolved CRS cache and no warnings |
| DataArrayAccessor.GeoDataArrayAccessor.SetDims | geoxarray/accessor.py:191-251 | the bindings become exactly what the role rules give; a completed call returns normally and marks the role map stale; a failed one raises for the explicit name of the failing role and leaves the role map as it was; the CRS state never changes |
| DataArrayAccessor.GeoDataArrayAccessor.BindRole | geoxarray/accessor.py:219-224 | one role's block: the binding becomes the one-role rule's value, or the assertion fails and nothing changes |
| DataArrayAccessor.FindFirstPresent | geoxarray/accessor.py:234-237 | the candidate loop returns the first present candidate |
| DataArrayAccessor.GeoDataArrayAccessor.DimMap | geoxarray/accessor.py:174-189 | a built map is returned unchanged; a stale map is rebuilt as the role map of the current bindings; a never-computed map first runs `set_dims()`; afterwards the map is built |
| DataArrayAccessor.GeoDataArrayAccessor.Dims | geoxarray/accessor.py:253-256 | `dims` is the physical dims renamed through the role map that `dim_map` leaves built; a 0-d array never reads `dim_map`, so its role state is left as it was |
| DataArrayAccessor.GeoDataArrayAccessor.Sizes | geoxarray/accessor.py:258-265 | `sizes` is keyed by the renamed dims; each extent sits under its renamed key unless a later dimension has the same key (the last one wins); with distinct renamed dims every extent is kept; a 0-d array gives an empty map and never reads `dim_map` |
| DataArrayAccessor.GeoDataArrayAccessor.ReadCrs | geoxarray/accessor.py:267-301 | the value returned is `CrsRead` of the cache before the call; a resolved cache is returned with no search and no warning; an unresolved one warns exactly when a truthy `grid_mapping` attribute exists, then caches a found CRS, caches absent when nothing is found, and raises with the cache unresolved when a parser raises or in the swath case (which marks the array not gridded) |
| DataArrayAccessor.GeoDataArrayAccessor.SetCrs | geoxarray/accessor.py:303-310 | the cache takes the given value and nothing else changes; None forces the next read to search again |
| DataArrayAccessor.ReadCrsTwice | geoxarray/accessor.py:267-272 | after a successful read, a second read returns the same value and adds no warning |
| DataArrayAccessor.GeoDataArrayAccessor.SetCfGridMapping | geoxarray/accessor.py:312-323 | the CRS cache becomes what the CF parser makes of the grid-mapping variable's attrs or of the given dict, and a later read returns it without a search; when the parse raises, the error is a parse error and the cache is as it was; nothing else changes |
| DatasetAccessor.Forwarded | geoxarray/accessor.py:71-78 | a member receives, per role, the explicit name only when the member has that dimension |
| DatasetAccessor.ForwardedCompletes | geoxarray/accessor.py:76-81 | a member's `set_dims` with the forwarded names never raises; each forwarded name binds its role; the other roles follow the no-argument rules |
| DatasetAccessor.ForwardDims | geoxarray/accessor.py:76-81 | a member that receives no name is left alone; any other member's bindings become what its `set_dims` gives and its role map turns stale; its CRS state is untouched |
| DatasetAccessor.GeoDatasetAccessor.constructor | geoxarray/accessor.py:63-67 | a new Dataset accessor holds no CRS |
| DatasetAccessor.GeoDatasetAccessor.SetDims | geoxarray/accessor.py:69-81 | every variable ends up with the names forwarded to it applied, relative to its state before the call, and no CRS state changes |
| DatasetAccessor.GeoDatasetAccessor.ForwardOne | geoxarray/accessor.py:76-81 | one iteration of that loop extends the forwarded set by one variable |
| DatasetAccessor.DedupDistinct | geoxarray/accessor.py:104-108 | names that do not repeat are their own first-seen order, so the Dataset's own variable names reach `_set_crs_objects` unchanged |
| DatasetAccessor.Dedup | geoxarray/accessor.py:107-128 | the names of the applied dict: every requested name once, and no other |
| DatasetAccessor.GeoDatasetAccessor.CacheAfterSetCrsCases | geoxarray/accessor.py:110-128 | one visit of `set_crs`: the grid mapping is the `grid_mapping` attribute exactly when it names a Dataset variable; a forced value is stored as given; the visit raises exactly when no value is forced and the grid mapping's CF parse raises; otherwise a member with a grid mapping gets the parsed CRS and any other member keeps its cache |
| DatasetAccessor.GeoDatasetAccessor.CrsTarget | geoxarray/accessor.py:111-125 | a forced value is stored as given; a member with a grid-mapping variable gets the CRS parsed from that variable's attrs, which is parsed only when its name has not been parsed before; a parse that raises is the error; any other member is left alone |
| DatasetAccessor.GeoDatasetAccessor.Store | geoxarray/accessor.py:112-123 | storing the decided cache on one member extends the applied set by that member |
| DatasetAccessor.GeoDatasetAccessor.SetCrs | geoxarray/accessor.py:83-129 | the call succeeds exactly when no requested name is missing and no needed CF parse raises; then it returns the requested names once each, and the CF parses are exactly the grid mappings of those members, once each; otherwise the error is that of the first failing name (KeyError for a missing one, the parse error otherwise), after handling exactly the names before it; each handled member's cache is the forced value, or its grid mapping's parsed CRS, or, with neither, the cache it had; members sharing a grid mapping get the same CRS; nothing but CRS caches changes |
| DatasetAccessor.GeoDatasetAccessor.ApplyAll | geoxarray/accessor.py:104-129 | the loop of `set_crs` over the given names, with the same guarantees (`SetCrsOutcome`) against the member states before it |
| DatasetAccessor.GeoDatasetAccessor.ApplyStep | geoxarray/accessor.py:109-128 | one turn for a present variable either raises the parse error, as the first failing name, or extends the loop state by that variable |
| DatasetAccessor.GeoDatasetAccessor.StopsAt | geoxarray/accessor.py:109-120 | the loop stops at the first name whose visit raises, with that name's error and the names before it handled |
| DatasetAccessor.GeoDatasetAccessor.SharedGridMapping | geoxarray/accessor.py:117-123 | members handled with the same grid mapping hold the same CRS |
| DatasetAccessor.Resolve | geoxarray/accessor.py:134 | one member's `crs` read returns `CrsRead` of its cache before the read, and leaves the member in the state `AfterRead` gives from its state before the read |
| DatasetAccessor.GeoDatasetAccessor.ResolveAll | geoxarray/accessor.py:134 | given the caches the members hold before the loop, it succeeds exactly when every read succeeds; each listed variable then maps to what its read returns, now its cache's view; otherwise the error is that of the first read that raises; the members read (all, or up to and including the first that raises) are in the state `AfterRead` gives and every other member is as it was (`ReadStates`) |
| DatasetAccessor.GeoDatasetAccessor.ReadStep | geoxarray/accessor.py:134 | one read either raises, as the first failing read, or extends the loop state by that member |
| DatasetAccessor.AfterRead | geoxarray/accessor.py:267-301 | a member's state after one `crs` read: its dimension state is untouched; its cache is resolved exactly when the read (`CrsRead`) succeeds, to a cache whose view is the value read; `is_gridded` becomes False exactly when the read raises the unbound error (the SwathDefinition branch) and is otherwise kept; one warning is added exactly when the cache was unresolved and a truthy `grid_mapping` attribute exists |
| DatasetAccessor.GeoDatasetAccessor.ReadOne | geoxarray/accessor.py:134 | reading one member returns `CrsRead` of its cache, changes that member's state as `AfterRead` says and no other member's |
| DatasetAccessor.GeoDatasetAccessor.MembersFromOutside | geoxarray/accessor.py:104-134 | a member `_set_crs_objects` was not asked for ends exactly as it was |
| DatasetAccessor.GeoDatasetAccessor.CrsObjects | geoxarray/accessor.py:131-134 | against the member states before the call (`ObjectsFrom`): the first name whose `set_crs` visit raises gives the error; otherwise each requested variable, once each, is read from the cache `set_crs` left it, the result maps exactly those variables to what their reads return, or the first raising read is the error; every member ends in the state `MembersFrom` gives |
| DatasetAccessor.GeoDatasetAccessor.CachesHeld | geoxarray/accessor.py:109-128 | after `set_crs`, each member it handled holds the cache that visit gives it |
| DatasetAccessor.GeoDatasetAccessor.ObjectsFromOutcome | geoxarray/accessor.py:131-134 | `set_crs` followed by the read loop is `ObjectsFrom` |
| DatasetAccessor.Aggregate | geoxarray/accessor.py:145-151 | one distinct value is the result; two or more raise "more than one CRS"; none raises "No CRS information found" (each an if-and-only-if) |
| DatasetAccessor.GeoDatasetAccessor.CollectedViews | geoxarray/accessor.py:143-151 | the decision on the collected values is the decision on the members' views |
| DatasetAccessor.GeoDatasetAccessor.ResolveViews | geoxarray/accessor.py:143-151 | against the member states before the call (`DatasetCrsFrom`): a raising CF parse is the error; then the first member whose read raises gives the error; otherwise the distinct values read decide (`DecidedOn`): one is the result, two or more raise "more than one CRS", none raises "No CRS information found"; afterwards a result is the single distinct member view, and "No CRS information found" is raised exactly for a Dataset without variables; every member ends in the state `MembersFrom` gives |
| DatasetAccessor.GeoDatasetAccessor.DecidedFromReads | geoxarray/accessor.py:143-151 | the decision taken on what `_set_crs_objects` returned is `DatasetCrsFrom` of the member states before the call |
| DatasetAccessor.GeoDatasetAccessor.ReadValues | geoxarray/accessor.py:143 | the values of a map holding every member's read are the set of distinct values read |
| DatasetAccessor.GeoDatasetAccessor.ReadCrs | geoxarray/accessor.py:136-151 | a held CRS is returned and no member changes; otherwise the result is `DatasetCrsFrom` of the member states before the call, in both directions, the members end in the states `MembersFrom` gives, a single value is held unless it is None, and an error leaves the Dataset CRS unresolved |
| CartopyProj.GlobeParamsInjective | geoxarray/crs/_cartopy.py:45-54 | the eight PROJ globe keys rename to distinct Globe keywords, and the reverse table recovers each key |
| CartopyProj.GlobeFromProj4 | geoxarray/crs/_cartopy.py:57-61 | every key of the Globe built is a Globe keyword of the renaming table |
| CartopyProj.GlobeFromProj4Keys | geoxarray/crs/_cartopy.py:57-61 | the Globe keywords are exactly the renamed keys of the terms whose key is a globe parameter |
| CartopyProj.GlobeFromProj4Values | geoxarray/crs/_cartopy.py:57-61 | in a dict, each such term's value reaches the Globe unchanged under its renamed keyword |
| CartopyProj.NonGlobeTerms | geoxarray/crs/_cartopy.py:70-73 | the other terms are exactly the terms whose key is not a globe parameter |
| CartopyProj.NonGlobeTermsAppend | geoxarray/crs/_cartopy.py:70-73 | the split keeps the dict's order: filtering distributes over concatenation |
| CartopyProj.OtherTerms | geoxarray/crs/_cartopy.py:70-73 | the loop builds exactly the non-globe terms, in order |
| CartopyProj.TermsPartition | geoxarray/crs/_cartopy.py:57-73 | for a dict, the Globe keywords and the other terms together account for every term exactly once |
| CartopyProj.NewProjection | geoxarray/crs/_cartopy.py:66-76 | the projection gets the non-globe terms in order, an explicitly given globe in preference to the derived one, and the bounds as given |
| CartopyProj.Proj4Projection.Boundary | geoxarray/crs/_cartopy.py:81-84 | the boundary exists exactly when bounds were given, and is then the ring of the bounds box |
| CartopyProj.Proj4Projection.XLimits | geoxarray/crs/_cartopy.py:86-89 | `x_limits` exists exactly when bounds were given, and is then `(x0, x1)` |
| CartopyProj.Proj4Projection.YLimits | geoxarray/crs/_cartopy.py:91-94 | `y_limits` exists exactly when bounds were given, and is then `(y0, y1)` |
| CartopyProj.BoundaryRing | geoxarray/crs/_cartopy.py:82-84 | five points, closed (first equals last, the lower-left corner), each step along one axis, every point a corner of the box |
| CartopyProj.BoundaryVisitsCorners | geoxarray/crs/_cartopy.py:82-84 | the ring visits all four corners before closing |
| CartopyProj.BoundarySpansLimits | geoxarray/crs/_cartopy.py:81-94 | the ring's x coordinates are exactly the two `x_limits` and its y coordinates exactly the two `y_limits` |

## Left out

- Warnings are counted by a ghost field `warnings`; the message text and the `warnings` module are not modelled.
- The pyproj parsers (`CRS.from_user_input`, `CRS.from_dict`, `CRS.from_cf`) are function parameters of `Backend`; None stands for a parser that raises. A CRS is a value whose equality stands for pyproj's CRS equality.
- Whether pyresample imported is a flag of `Backend`; AreaDefinition and SwathDefinition are tags of `AreaGeometry`, and `hasattr(area, 'crs')` is an optional field.
- `set_cf_grid_mapping` (geoxarray/accessor.py:312-323): its `errcheck` flag only controls pyproj's own checks of the attributes and is not modelled.
- `get_lonlats` and `plot` (geoxarray/accessor.py:325-344) raise NotImplementedError and are not modelled.
- geoxarray/coords.py, geoxarray/crs/_proj4.py, geoxarray/crs/__init__.py and setup.py are not part of this model.
- How xarray attaches `.geo` and whether it caches accessors are not modelled. A Dataset is its names with one persistent accessor per variable, and `ds[name].geo` and the accessor of `ds.variables` entries are taken to be the same object.
- `sizes` returns a map, not xarray's `Frozen` mapping class.
- `_PROJ4Projection.__init__` receives the dict of an already parsed CRS; `CRS.from_user_input(...).to_dict()` is not modelled. A Globe is its keyword map; building `ccrs.Globe` and the Cartopy `Projection` superclass are not modelled.
- `threshold` (geoxarray/crs/_cartopy.py:96-99) is floating-point division and is not modelled. Bounds are `real` values, not floats.
- `__repr__`, `_lesser_from_proj` and the import-time choice of `from_proj` (geoxarray/crs/_cartopy.py:78-79, 102-114) are not modelled.
- The boundary is a sequence of points, not a shapely `LineString`. Bounds that are not a four-tuple are not modelled; absent bounds make `x_limits`, `y_limits` and `boundary` raise.
- DatasetAccessor.Dedup: its contract states distinctness and membership; the first-seen order comes from its definition and is not stated as a separate property.
- DatasetAccessor.GeoDatasetAccessor.SetCrs: calls to the CF parser are recorded in a ghost log that the model keeps itself; the parser, being a pure function here, has no observable call count.
