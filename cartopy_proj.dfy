/**
 * The PROJ-to-Cartopy bridge: a PROJ parameter dict is split into Globe
 * keywords (renamed through the Globe parameter table) and the remaining
 * projection terms, and a projection's bounds give its limits and boundary.
 * A dict is a sequence of (key, value) pairs in iteration order.
 */
module CartopyProj {
  import opened Util

  /** The keys of a term sequence, in order. */
  function Keys<V>(terms: seq<(string, V)>): (ks: seq<string>)
    ensures |ks| == |terms| && forall i :: 0 <= i < |terms| ==> ks[i] == terms[i].0
  {
    seq(|terms|, i requires 0 <= i < |terms| => terms[i].0)
  }

  /** A dict's terms: no key occurs twice. */
  predicate IsDict<V>(terms: seq<(string, V)>)
  {
    Distinct(Keys(terms))
  }

  /** `_GLOBE_PARAMS`: the PROJ keys that describe the globe, with the Globe keyword each becomes. */
  const GlobeParams: map<string, string> := map[
    "datum" := "datum",
    "ellps" := "ellipse",
    "a" := "semimajor_axis",
    "b" := "semiminor_axis",
    "f" := "flattening",
    "rf" := "inverse_flattening",
    "towgs84" := "towgs84",
    "nadgrids" := "nadgrids"
  ]

  /** The reverse table: the PROJ key each Globe keyword comes from. */
  const GlobeSources: map<string, string> := map[
    "datum" := "datum",
    "ellipse" := "ellps",
    "semimajor_axis" := "a",
    "semiminor_axis" := "b",
    "flattening" := "f",
    "inverse_flattening" := "rf",
    "towgs84" := "towgs84",
    "nadgrids" := "nadgrids"
  ]

  /**
   * The renaming is injective: every Globe keyword comes from exactly one
   * PROJ key, so no two globe terms of a dict land on the same keyword.
   */
  lemma GlobeParamsInjective()
    ensures forall k :: k in GlobeParams ==> GlobeParams[k] in GlobeSources && GlobeSources[GlobeParams[k]] == k
    ensures forall k1, k2 :: k1 in GlobeParams && k2 in GlobeParams && GlobeParams[k1] == GlobeParams[k2] ==> k1 == k2
  {
    forall k | k in GlobeParams
      ensures GlobeParams[k] in GlobeSources && GlobeSources[GlobeParams[k]] == k
    {
      if k == "datum" {} else if k == "ellps" {} else if k == "a" {} else if k == "b" {}
      else if k == "f" {} else if k == "rf" {} else if k == "towgs84" {} else {}
    }
  }

  /**
   * `_globe_from_proj4`: the Globe keywords built from the terms whose key is
   * a globe parameter, each renamed and keeping its value.
   */
  function GlobeFromProj4<V>(terms: seq<(string, V)>): (globe: map<string, V>)
    ensures forall k :: k in globe ==> k in GlobeSources
  {
    if terms == [] then map[]
    else
      var init, last := terms[..|terms| - 1], terms[|terms| - 1];
      var rest := GlobeFromProj4(init);
      if last.0 in GlobeParams then rest[GlobeParams[last.0] := last.1] else rest
  }

  /** The globe holds a keyword exactly when some term's key renames to it. */
  lemma {:induction false} GlobeFromProj4Keys<V>(terms: seq<(string, V)>)
    ensures forall k :: k in GlobeFromProj4(terms) <==>
              exists i :: 0 <= i < |terms| && terms[i].0 in GlobeParams && GlobeParams[terms[i].0] == k
  {
    if terms != [] {
      var init, last := terms[..|terms| - 1], terms[|terms| - 1];
      GlobeFromProj4Keys(init);
      assert forall i :: 0 <= i < |init| ==> init[i] == terms[i];
    }
  }

  /** The terms whose key is not a globe parameter, in order. */
  function NonGlobeTerms<V>(terms: seq<(string, V)>): (r: seq<(string, V)>)
    ensures forall i :: 0 <= i < |r| ==> r[i] in terms && r[i].0 !in GlobeParams
    ensures forall i :: 0 <= i < |terms| && terms[i].0 !in GlobeParams ==> terms[i] in r
  {
    if terms == [] then []
    else (if terms[0].0 in GlobeParams then [] else [terms[0]]) + NonGlobeTerms(terms[1..])
  }

  /** Filtering keeps the order: it distributes over concatenation. */
  lemma {:induction false} NonGlobeTermsAppend<V>(a: seq<(string, V)>, b: seq<(string, V)>)
    ensures NonGlobeTerms(a + b) == NonGlobeTerms(a) + NonGlobeTerms(b)
  {
    if a == [] {
      assert a + b == b;
    } else {
      assert (a + b)[1..] == a[1..] + b;
      NonGlobeTermsAppend(a[1..], b);
    }
  }

  /** The loop of `_PROJ4Projection.__init__` that collects `other_terms`. */
  method OtherTerms<V>(terms: seq<(string, V)>) returns (other: seq<(string, V)>)
    ensures other == NonGlobeTerms(terms)
  {
    other := [];
    for i := 0 to |terms|
      invariant other == NonGlobeTerms(terms[..i])
    {
      assert terms[..i + 1] == terms[..i] + [terms[i]];
      NonGlobeTermsAppend(terms[..i], [terms[i]]);
      if terms[i].0 !in GlobeParams {
        other := other + [terms[i]];
      }
    }
    assert terms[..|terms|] == terms;
  }

  /** Dropping the last term of a dict leaves a dict. */
  lemma IsDictInit<V>(terms: seq<(string, V)>)
    requires IsDict(terms) && terms != []
    ensures IsDict(terms[..|terms| - 1])
  {
    var init := terms[..|terms| - 1];
    assert forall i :: 0 <= i < |init| ==> Keys(init)[i] == Keys(terms)[i];
  }

  /** In a dict, every term with a globe key is in the globe, renamed, with its value unchanged. */
  lemma {:induction false} GlobeFromProj4Values<V>(terms: seq<(string, V)>)
    requires IsDict(terms)
    ensures forall i :: 0 <= i < |terms| && terms[i].0 in GlobeParams ==>
              GlobeParams[terms[i].0] in GlobeFromProj4(terms) && GlobeFromProj4(terms)[GlobeParams[terms[i].0]] == terms[i].1
  {
    if terms != [] {
      var init, last := terms[..|terms| - 1], terms[|terms| - 1];
      assert forall i :: 0 <= i < |init| ==> init[i] == terms[i];
      IsDictInit(terms);
      GlobeFromProj4Values(init);
      if last.0 in GlobeParams {
        GlobeParamsInjective();
        forall j | 0 <= j < |init| && init[j].0 in GlobeParams
          ensures GlobeParams[init[j].0] != GlobeParams[last.0]
        {
          assert Keys(terms)[j] != Keys(terms)[|terms| - 1];
        }
      }
    }
  }

  /**
   * The globe keywords and the other terms partition a dict: every term goes
   * to exactly one side (the globe for a globe key, by GlobeFromProj4Values;
   * the other terms otherwise, by NonGlobeTerms), and nothing is lost or
   * duplicated, as the sizes add up.
   */
  lemma {:induction false} TermsPartition<V>(terms: seq<(string, V)>)
    requires IsDict(terms)
    ensures |GlobeFromProj4(terms)| + |NonGlobeTerms(terms)| == |terms|
  {
    if terms != [] {
      var init, last := terms[..|terms| - 1], terms[|terms| - 1];
      assert terms == init + [last];
      IsDictInit(terms);
      TermsPartition(init);
      NonGlobeTermsAppend(init, [last]);
      assert NonGlobeTerms([last]) == if last.0 in GlobeParams then [] else [last];
      if last.0 in GlobeParams {
        GlobeParamsInjective();
        GlobeFromProj4Keys(init);
        forall i | 0 <= i < |init| && init[i].0 in GlobeParams
          ensures GlobeParams[init[i].0] != GlobeParams[last.0]
        {
          assert Keys(terms)[i] != Keys(terms)[|terms| - 1];
        }
        assert GlobeParams[last.0] !in GlobeFromProj4(init);
        assert GlobeFromProj4(terms) == GlobeFromProj4(init)[GlobeParams[last.0] := last.1];
      } else {
        assert GlobeFromProj4(terms) == GlobeFromProj4(init);
      }
    }
  }

  /** A projection's bounds `(x0, x1, y0, y1)`. */
  datatype Bounds = Bounds(x0: real, x1: real, y0: real, y1: real)

  datatype Point = Point(x: real, y: real)

  /**
   * A `_PROJ4Projection`: the projection terms and Globe keywords it hands
   * to the Cartopy projection, and its bounds (None when none were given).
   */
  datatype Proj4Projection<V> = Proj4Projection(otherTerms: seq<(string, V)>, globe: map<string, V>, bounds: Option<Bounds>)
  {
    /** `x_limits`: `(x0, x1)`; without bounds the unpacking raises. */
    function XLimits(): (r: Option<(real, real)>)
      ensures r.Some? <==> bounds.Some?
      ensures r.Some? ==> r.value.0 == bounds.value.x0 && r.value.1 == bounds.value.x1
    {
      if bounds.Some? then Some((bounds.value.x0, bounds.value.x1)) else None
    }

    /** `y_limits`: `(y0, y1)`; without bounds the unpacking raises. */
    function YLimits(): (r: Option<(real, real)>)
      ensures r.Some? <==> bounds.Some?
      ensures r.Some? ==> r.value.0 == bounds.value.y0 && r.value.1 == bounds.value.y1
    {
      if bounds.Some? then Some((bounds.value.y0, bounds.value.y1)) else None
    }

    /** `boundary`: the ring through the four corners; without bounds the unpacking raises. */
    function Boundary(): (r: Option<seq<Point>>)
      ensures r.Some? <==> bounds.Some?
      ensures r.Some? ==> r.value == BoundaryRing(bounds.value)
    {
      if bounds.Some? then Some(BoundaryRing(bounds.value)) else None
    }
  }

  /**
   * The boundary ring of a bounds box: five points starting at the lower-left
   * corner, each step moving along one axis, ending where it started.
   */
  function BoundaryRing(b: Bounds): (ring: seq<Point>)
    ensures |ring| == 5 && ring[0] == ring[4] == Point(b.x0, b.y0)
    ensures forall i :: 0 <= i < 4 ==> ring[i].x == ring[i + 1].x || ring[i].y == ring[i + 1].y
    ensures forall i :: 0 <= i < 5 ==> (ring[i].x == b.x0 || ring[i].x == b.x1) && (ring[i].y == b.y0 || ring[i].y == b.y1)
  {
    [Point(b.x0, b.y0), Point(b.x0, b.y1), Point(b.x1, b.y1), Point(b.x1, b.y0), Point(b.x0, b.y0)]
  }

  /** The ring visits every corner of the box before closing. */
  lemma BoundaryVisitsCorners(b: Bounds, x: real, y: real)
    requires (x == b.x0 || x == b.x1) && (y == b.y0 || y == b.y1)
    ensures exists i :: 0 <= i < 4 && BoundaryRing(b)[i] == Point(x, y)
  {
    var ring := BoundaryRing(b);
    if x == b.x0 && y == b.y0 {
      assert ring[0] == Point(x, y);
    } else if x == b.x0 {
      assert ring[1] == Point(x, y);
    } else if y == b.y1 {
      assert ring[2] == Point(x, y);
    } else {
      assert ring[3] == Point(x, y);
    }
  }

  /**
   * The boundary spans exactly the limits: its x coordinates are the two
   * x limits and its y coordinates the two y limits.
   */
  lemma BoundarySpansLimits<V>(p: Proj4Projection<V>)
    requires p.bounds.Some?
    ensures var ring := p.Boundary().value;
            && (set i | 0 <= i < 5 :: ring[i].x) == {p.XLimits().value.0, p.XLimits().value.1}
            && (set i | 0 <= i < 5 :: ring[i].y) == {p.YLimits().value.0, p.YLimits().value.1}
  {
    var ring := p.Boundary().value;
    var b := p.bounds.value;
    assert ring[0].x == b.x0 && ring[2].x == b.x1;
    assert ring[0].y == b.y0 && ring[1].y == b.y1;
  }

  /**
   * `_PROJ4Projection.__init__` on the dict of an already parsed CRS: the
   * projection keeps the non-globe terms in order, uses the explicitly given
   * globe when there is one and the globe built from the terms otherwise, and
   * keeps the bounds as given.
   */
  method NewProjection<V>(terms: seq<(string, V)>, globe: Option<map<string, V>>, bounds: Option<Bounds>)
    returns (p: Proj4Projection<V>)
    ensures p.otherTerms == NonGlobeTerms(terms) && p.bounds == bounds
    ensures globe.Some? ==> p.globe == globe.value
    ensures globe.None? ==> p.globe == GlobeFromProj4(terms)
  {
    var g := if globe.None? then GlobeFromProj4(terms) else globe.value;
    var other := OtherTerms(terms);
    p := Proj4Projection(other, g, bounds);
  }
}
