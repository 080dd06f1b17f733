/**
 * The xarray object as the accessor sees it (dimensions, extents, attrs,
 * coords), the CRS values it resolves, the parsers it calls, and the
 * priority search behind the DataArray `crs` property.
 */
module GeoTypes {
  import opened Util

  /** A coordinate reference system; equality stands for pyproj's CRS equality. */
  datatype Crs = Crs(definition: string)

  /** pyresample geometry kinds, reduced to what the accessor tests. */
  datatype AreaGeometry =
    | AreaDefinition(crsAttribute: Option<Crs>, projDict: map<string, string>)
    | SwathDefinition
    | OtherGeometry

  /** A value stored in attrs or coords. */
  datatype AttrValue =
    | PyNone
    | Text(text: string)
    | Number(number: int)
    | CrsObject(crs: Crs)
    | Geometry(geometry: AreaGeometry)
    | OtherObject(id: nat)

  /** Python truthiness of an attribute value. */
  predicate Truthy(v: AttrValue)
  {
    match v
    case PyNone => false
    case Text(s) => s != ""
    case Number(n) => n != 0
    case _ => true
  }

  /** An xarray DataArray: dims with their extents, attrs and coords. */
  datatype DataArray = DataArray(dims: seq<string>, shape: seq<nat>,
                                 attrs: map<string, AttrValue>, coords: map<string, AttrValue>)
  {
    predicate WellFormed()
    {
      |dims| == |shape| && Distinct(dims)
    }

    /** `attrs.get(key)`. */
    function Attr(key: string): AttrValue
    {
      if key in attrs then attrs[key] else PyNone
    }
  }

  /**
   * The module-level facts and foreign parsers the accessor relies on:
   * whether pyresample imported, and `CRS.from_user_input`, `CRS.from_dict`,
   * `CRS.from_cf` (None = the parser raised).
   */
  datatype Backend = Backend(hasPyresample: bool,
                             fromUserInput: AttrValue -> Option<Crs>,
                             fromDict: map<string, string> -> Option<Crs>,
                             fromCf: map<string, AttrValue> -> Option<Crs>)

  /** The `_crs` cache: None (not yet resolved), False (resolved, none found), or a CRS. */
  datatype CrsCache = Unresolved | Absent | Present(crs: Crs)

  /** What the `crs` property returns from a resolved cache. */
  function View(c: CrsCache): Option<Crs>
  {
    match c
    case Present(crs) => Some(crs)
    case _ => None
  }

  /** Errors the accessors raise. */
  datatype GeoError =
    | DimensionNotFound(name: string)  // AssertionError in set_dims
    | CrsParseError                   // raised by a pyproj parser
    | UnboundCrs                      // UnboundLocalError after the SwathDefinition branch
    | VariableNotFound(name: string)  // KeyError from dataset indexing
    | MoreThanOneCrs                  // "Dataset has more than one CRS"
    | NoCrsFound                      // "No CRS information found in Dataset"

  /** The result of one search for an array's CRS. */
  datatype CrsSearch = Found(crs: Crs) | NotFound | ParseFailed | SwathUnbound

  function FromParser(parsed: Option<Crs>): CrsSearch
  {
    if parsed.Some? then Found(parsed.value) else ParseFailed
  }

  /** The resolution pass warns when a truthy `grid_mapping` attribute is present. */
  predicate WarnsGridMapping(obj: DataArray)
  {
    Truthy(obj.Attr("grid_mapping"))
  }

  /** The `crs` attr counts when present and not None. */
  predicate HasAttrCrs(obj: DataArray)
  {
    obj.Attr("crs") != PyNone
  }

  predicate IsArea(obj: DataArray, backend: Backend)
  {
    backend.hasPyresample && obj.Attr("area").Geometry? && obj.Attr("area").geometry.AreaDefinition?
  }

  predicate IsSwath(obj: DataArray, backend: Backend)
  {
    backend.hasPyresample && obj.Attr("area").Geometry? && obj.Attr("area").geometry.SwathDefinition?
  }

  /**
   * One resolution pass of the DataArray `crs` property: the `crs` coordinate,
   * then the `crs` attribute, then an AreaDefinition's CRS (its `crs`
   * attribute, else its PROJ dict); a SwathDefinition leaves the result
   * unassigned; nothing found is NotFound.
   */
  function SearchCrs(obj: DataArray, backend: Backend): (r: CrsSearch)
    ensures r == NotFound <==> "crs" !in obj.coords && !HasAttrCrs(obj) && !IsArea(obj, backend) && !IsSwath(obj, backend)
    ensures r == SwathUnbound <==> "crs" !in obj.coords && !HasAttrCrs(obj) && IsSwath(obj, backend)
    ensures r.Found? ==>
              || ("crs" in obj.coords && backend.fromUserInput(obj.coords["crs"]) == Some(r.crs))
              || ("crs" !in obj.coords && backend.fromUserInput(obj.Attr("crs")) == Some(r.crs))
              || (IsArea(obj, backend) && obj.Attr("area").geometry.crsAttribute == Some(r.crs))
              || (IsArea(obj, backend) && backend.fromDict(obj.Attr("area").geometry.projDict) == Some(r.crs))
    ensures "crs" in obj.coords ==> r == FromParser(backend.fromUserInput(obj.coords["crs"]))
    ensures "crs" !in obj.coords && HasAttrCrs(obj) ==> r == FromParser(backend.fromUserInput(obj.Attr("crs")))
    ensures "crs" !in obj.coords && !HasAttrCrs(obj) && IsArea(obj, backend) ==>
              var area := obj.Attr("area").geometry;
              r == if area.crsAttribute.Some? then Found(area.crsAttribute.value) else FromParser(backend.fromDict(area.projDict))
  {
    if "crs" in obj.coords then FromParser(backend.fromUserInput(obj.coords["crs"]))
    else if HasAttrCrs(obj) then FromParser(backend.fromUserInput(obj.Attr("crs")))
    else if IsArea(obj, backend) then
      var area := obj.Attr("area").geometry;
      if area.crsAttribute.Some? then Found(area.crsAttribute.value) else FromParser(backend.fromDict(area.projDict))
    else if IsSwath(obj, backend) then SwathUnbound
    else NotFound
  }

  /** The `crs` coordinate, when present, decides the search whatever attrs hold. */
  lemma CoordsCrsFirst(obj: DataArray, attrs: map<string, AttrValue>, backend: Backend)
    requires "crs" in obj.coords
    ensures SearchCrs(obj.(attrs := attrs), backend) == SearchCrs(obj, backend)
  {
  }

  /** Without a `crs` coordinate, a non-None `crs` attribute decides the search whatever the area holds. */
  lemma AttrsCrsBeforeArea(obj: DataArray, area: AttrValue, backend: Backend)
    requires "crs" !in obj.coords && HasAttrCrs(obj)
    ensures SearchCrs(obj.(attrs := obj.attrs["area" := area]), backend) == SearchCrs(obj, backend)
  {
    var other := obj.(attrs := obj.attrs["area" := area]);
    assert other.Attr("crs") == obj.Attr("crs");
  }

  /**
   * What one read of the DataArray `crs` property returns from the cache
   * `cache`: a resolved cache as it is; an unresolved one the outcome of a
   * search pass, raising when a parser raises or in the swath case.
   */
  function CrsRead(cache: CrsCache, obj: DataArray, backend: Backend): (r: Result<Option<Crs>, GeoError>)
    ensures cache != Unresolved ==> r == Ok(View(cache))
    ensures r == Err(CrsParseError) <==> cache == Unresolved && SearchCrs(obj, backend) == ParseFailed
    ensures r == Err(UnboundCrs) <==> cache == Unresolved && SearchCrs(obj, backend) == SwathUnbound
    ensures r.Err? ==> r.error == CrsParseError || r.error == UnboundCrs
    ensures cache == Unresolved && r.Ok? ==> (r.value.Some? <==> SearchCrs(obj, backend).Found?)
    ensures cache == Unresolved && SearchCrs(obj, backend).Found? ==> r == Ok(Some(SearchCrs(obj, backend).crs))
    ensures cache == Unresolved && SearchCrs(obj, backend) == NotFound ==> r == Ok(None)
  {
    if cache != Unresolved then Ok(View(cache))
    else match SearchCrs(obj, backend)
      case Found(c) => Ok(Some(c))
      case NotFound => Ok(None)
      case ParseFailed => Err(CrsParseError)
      case SwathUnbound => Err(UnboundCrs)
  }
}
