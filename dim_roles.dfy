/**
 * The dimension-role rules of the `.geo` DataArray accessor, stated on values:
 * which physical dimension plays the x, y, vertical and time role, the role map
 * built from those bindings, and the role-renamed `dims` and `sizes` views.
 */
module DimRoles {
  import opened Util

  /** The four canonical roles. */
  datatype Role = X | Y | Vertical | Time

  /** `set_dims` treats the roles in this order, one after the other. */
  const RoleOrder: seq<Role> := [X, Y, Vertical, Time]

  /** Position of a role in `RoleOrder`; later roles win in the role map. */
  function RoleIndex(role: Role): (k: nat)
    ensures k < |RoleOrder| && RoleOrder[k] == role
  {
    match role
    case X => 0
    case Y => 1
    case Vertical => 2
    case Time => 3
  }

  /** The name a bound dimension takes in the renamed views. */
  function RoleName(role: Role): string
  {
    match role
    case X => "x"
    case Y => "y"
    case Vertical => "vertical"
    case Time => "time"
  }

  const RoleNames: set<string> := {"x", "y", "vertical", "time"}

  /** Candidate physical names searched, in order, when a role is inferred. */
  function Candidates(role: Role): seq<string>
  {
    match role
    case X => ["x"]
    case Y => ["y"]
    case Vertical => ["z", "vertical", "pressure_level"]
    case Time => ["time", "t"]
  }

  /**
   * One optional physical dimension name per role: the accessor's
   * `_x_dim`, `_y_dim`, `_vertical_dim`, `_time_dim`, or the keyword
   * arguments of `set_dims` (None = argument not given).
   */
  datatype RoleBindings = RoleBindings(x: Option<string>, y: Option<string>,
                                       vertical: Option<string>, time: Option<string>)
  {
    function Get(role: Role): Option<string>
    {
      match role
      case X => x
      case Y => y
      case Vertical => vertical
      case Time => time
    }

    function With(role: Role, name: Option<string>): (r: RoleBindings)
      ensures r.Get(role) == name
      ensures forall other :: other != role ==> r.Get(other) == Get(other)
    {
      match role
      case X => this.(x := name)
      case Y => this.(y := name)
      case Vertical => this.(vertical := name)
      case Time => this.(time := name)
    }
  }

  const Unbound := RoleBindings(None, None, None, None)

  /** Every bound name is one of the array's dimensions. */
  predicate BoundWithin(b: RoleBindings, dims: seq<string>)
  {
    forall role :: b.Get(role).Some? ==> b.Get(role).value in dims
  }

  /** The first candidate that is one of `dims`, if any. */
  function FirstPresent(candidates: seq<string>, dims: seq<string>): (r: Option<string>)
    ensures r.None? <==> forall c :: c in candidates ==> c !in dims
    ensures r.Some? ==> exists k :: 0 <= k < |candidates| && candidates[k] == r.value && r.value in dims
                                    && forall j :: 0 <= j < k ==> candidates[j] !in dims
  {
    if candidates == [] then None
    else if candidates[0] in dims then Some(candidates[0])
    else
      var r := FirstPresent(candidates[1..], dims);
      assert forall c :: c in candidates ==> c == candidates[0] || c in candidates[1..];
      if r.Some? then
        var k :| 0 <= k < |candidates[1..]| && candidates[1..][k] == r.value && r.value in dims
                 && forall j :: 0 <= j < k ==> candidates[1..][j] !in dims;
        assert candidates[k + 1] == r.value;
        assert forall j :: 0 <= j < k + 1 ==> candidates[j] !in dims by {
          forall j | 0 <= j < k + 1 ensures candidates[j] !in dims {
            if j > 0 { assert candidates[j] == candidates[1..][j - 1]; }
          }
        }
        r
      else r
  }

  /** An explicit name for `role` that is not among `dims`: the `assert` fails. */
  predicate Rejects(explicit: RoleBindings, role: Role, dims: seq<string>)
  {
    explicit.Get(role).Some? && explicit.Get(role).value !in dims
  }

  /**
   * The rule `set_dims` applies to one role: an explicit name wins if it is a
   * dimension (else the assertion fails, None); without one, a bound role is
   * kept and an unbound role takes the first present candidate.
   */
  function StepRole(current: Option<string>, explicit: Option<string>, dims: seq<string>,
                    candidates: seq<string>): (r: Option<Option<string>>)
    ensures r.None? <==> explicit.Some? && explicit.value !in dims
    ensures explicit.Some? && r.Some? ==> r.value == explicit
    ensures explicit.None? && current.Some? ==> r == Some(current)
    ensures explicit.None? && current.None? ==> r.Some? && (r.value.Some? ==> r.value.value in candidates && r.value.value in dims)
    ensures explicit.None? && current.None? ==> r == Some(FirstPresent(candidates, dims))
    ensures r.Some? && r.value.Some? && (current.Some? ==> current.value in dims) ==> r.value.value in dims
  {
    if explicit.None? && current.None? then Some(FirstPresent(candidates, dims))
    else if explicit.Some? then (if explicit.value in dims then Some(explicit) else None)
    else Some(current)
  }

  /** What a call of `set_dims` leaves behind: all roles done, or stopped at an assertion. */
  datatype SetDimsOutcome = Completed(roles: RoleBindings) | Failed(roles: RoleBindings, failedRole: Role)

  /** The roles of `order` applied one after the other, stopping at the first failed assertion. */
  function ApplyRoles(order: seq<Role>, current: RoleBindings, explicit: RoleBindings,
                      dims: seq<string>): SetDimsOutcome
    decreases |order|
  {
    if order == [] then Completed(current)
    else
      var role := order[0];
      match StepRole(current.Get(role), explicit.Get(role), dims, Candidates(role))
      case None => Failed(current, role)
      case Some(bound) => ApplyRoles(order[1..], current.With(role, bound), explicit, dims)
  }

  /** `set_dims(x, y, vertical, time)` on bindings `current` of an array with dimensions `dims`. */
  function SetDimsSpec(current: RoleBindings, explicit: RoleBindings, dims: seq<string>): SetDimsOutcome
  {
    ApplyRoles(RoleOrder, current, explicit, dims)
  }

  /**
   * A failed call stops at a role of `order` whose explicit name is not a
   * dimension; a completed one met no such role, gave every role of `order`
   * with an explicit name that name, and left the roles outside `order` alone.
   */
  lemma {:induction false} ApplyRolesOutcome(order: seq<Role>, current: RoleBindings,
                                             explicit: RoleBindings, dims: seq<string>)
    ensures var r := ApplyRoles(order, current, explicit, dims);
            && (r.Failed? ==> r.failedRole in order && Rejects(explicit, r.failedRole, dims))
            && (r.Completed? ==> forall role :: role in order ==> !Rejects(explicit, role, dims))
            && (forall role :: role !in order ==> r.roles.Get(role) == current.Get(role))
            && (r.Completed? ==> forall role :: role in order && explicit.Get(role).Some? ==> r.roles.Get(role) == explicit.Get(role))
    decreases |order|
  {
    if order != [] {
      var role := order[0];
      match StepRole(current.Get(role), explicit.Get(role), dims, Candidates(role))
      case None =>
      case Some(bound) =>
        ApplyRolesOutcome(order[1..], current.With(role, bound), explicit, dims);
        assert forall other :: other in order ==> other == role || other in order[1..];
    }
  }

  /** A completed `set_dims` binds every role given explicitly to the name given. */
  lemma SetDimsExplicitWins(current: RoleBindings, explicit: RoleBindings, dims: seq<string>)
    ensures var r := SetDimsSpec(current, explicit, dims);
            r.Completed? ==> forall role :: explicit.Get(role).Some? ==> r.roles.Get(role) == explicit.Get(role)
  {
    ApplyRolesOutcome(RoleOrder, current, explicit, dims);
    forall role
      ensures role in RoleOrder
    {
      assert RoleOrder[RoleIndex(role)] == role;
    }
  }

  /** The call fails exactly when some explicit name is not a dimension, at the first such role. */
  lemma {:induction false} ApplyRolesFailure(order: seq<Role>, current: RoleBindings,
                                             explicit: RoleBindings, dims: seq<string>)
    ensures var out := ApplyRoles(order, current, explicit, dims);
            out.Failed? <==> exists j :: 0 <= j < |order| && Rejects(explicit, order[j], dims)
    ensures var out := ApplyRoles(order, current, explicit, dims);
            out.Failed? ==> exists j :: 0 <= j < |order| && order[j] == out.failedRole
                                        && Rejects(explicit, order[j], dims)
                                        && forall i :: 0 <= i < j ==> !Rejects(explicit, order[i], dims)
    decreases |order|
  {
    if order != [] {
      var role := order[0];
      match StepRole(current.Get(role), explicit.Get(role), dims, Candidates(role))
      case None =>
        assert Rejects(explicit, order[0], dims);
      case Some(bound) =>
        assert !Rejects(explicit, order[0], dims);
        ApplyRolesFailure(order[1..], current.With(role, bound), explicit, dims);
        var out := ApplyRoles(order, current, explicit, dims);
        assert out == ApplyRoles(order[1..], current.With(role, bound), explicit, dims);
        if exists j :: 0 <= j < |order| && Rejects(explicit, order[j], dims) {
          var j :| 0 <= j < |order| && Rejects(explicit, order[j], dims);
          assert j > 0 && order[1..][j - 1] == order[j];
        }
        if out.Failed? {
          var j :| 0 <= j < |order[1..]| && order[1..][j] == out.failedRole
                   && Rejects(explicit, order[1..][j], dims)
                   && forall i :: 0 <= i < j ==> !Rejects(explicit, order[1..][i], dims);
          assert order[j + 1] == out.failedRole;
          forall i | 0 <= i < j + 1 ensures !Rejects(explicit, order[i], dims) {
            if i > 0 { assert order[i] == order[1..][i - 1]; }
          }
        }
    }
  }

  /**
   * Role by role: a role reached before any failed assertion takes its
   * `StepRole` value; a role not in `order`, or not reached, keeps its binding.
   */
  lemma {:induction false} ApplyRolesAt(order: seq<Role>, current: RoleBindings,
                                        explicit: RoleBindings, dims: seq<string>, role: Role)
    requires Distinct(order)
    ensures var out := ApplyRoles(order, current, explicit, dims);
            role !in order ==> out.roles.Get(role) == current.Get(role)
    ensures var out := ApplyRoles(order, current, explicit, dims);
            forall k :: 0 <= k < |order| && order[k] == role ==>
              ((forall j :: 0 <= j <= k ==> !Rejects(explicit, order[j], dims)) ==>
                 out.roles.Get(role) == StepRole(current.Get(role), explicit.Get(role), dims, Candidates(role)).value)
              && ((exists j :: 0 <= j <= k && Rejects(explicit, order[j], dims)) ==>
                 out.roles.Get(role) == current.Get(role))
    decreases |order|
  {
    if order != [] {
      var first := order[0];
      var rest := order[1..];
      assert Distinct(rest) by {
        forall i, j | 0 <= i < j < |rest| ensures rest[i] != rest[j] {
          assert rest[i] == order[i + 1] && rest[j] == order[j + 1];
        }
      }
      match StepRole(current.Get(first), explicit.Get(first), dims, Candidates(first))
      case None =>
        assert Rejects(explicit, order[0], dims);
      case Some(bound) =>
        var next := current.With(first, bound);
        ApplyRolesAt(rest, next, explicit, dims, role);
        var out := ApplyRoles(order, current, explicit, dims);
        assert out == ApplyRoles(rest, next, explicit, dims);
        assert !Rejects(explicit, order[0], dims);
        if role == first {
          assert role !in rest by {
            forall i | 0 <= i < |rest| ensures rest[i] != role { assert rest[i] == order[i + 1]; }
          }
          forall k | 0 <= k < |order| && order[k] == role ensures k == 0 {
            if k != 0 { assert false; }
          }
        } else {
          forall k | 0 <= k < |order| && order[k] == role
            ensures ((forall j :: 0 <= j <= k ==> !Rejects(explicit, order[j], dims)) ==>
                       out.roles.Get(role) == StepRole(current.Get(role), explicit.Get(role), dims, Candidates(role)).value)
                    && ((exists j :: 0 <= j <= k && Rejects(explicit, order[j], dims)) ==>
                       out.roles.Get(role) == current.Get(role))
          {
            assert k > 0 && rest[k - 1] == role;
            if exists j :: 0 <= j <= k && Rejects(explicit, order[j], dims) {
              var j :| 0 <= j <= k && Rejects(explicit, order[j], dims);
              assert j > 0 && rest[j - 1] == order[j];
            } else {
              forall j | 0 <= j <= k - 1 ensures !Rejects(explicit, rest[j], dims) {
                assert rest[j] == order[j + 1];
              }
            }
          }
        }
    }
  }

  /** `set_dims` raises exactly when an explicit name is missing from the dimensions. */
  lemma SetDimsFailsIff(current: RoleBindings, explicit: RoleBindings, dims: seq<string>)
    ensures SetDimsSpec(current, explicit, dims).Failed? <==> exists role :: Rejects(explicit, role, dims)
    ensures var out := SetDimsSpec(current, explicit, dims);
            out.Failed? ==> Rejects(explicit, out.failedRole, dims)
                            && forall role :: RoleIndex(role) < RoleIndex(out.failedRole) ==> !Rejects(explicit, role, dims)
  {
    ApplyRolesFailure(RoleOrder, current, explicit, dims);
    if exists role :: Rejects(explicit, role, dims) {
      var role :| Rejects(explicit, role, dims);
      assert RoleOrder[RoleIndex(role)] == role;
    }
    var out := SetDimsSpec(current, explicit, dims);
    if out.Failed? {
      var j :| 0 <= j < |RoleOrder| && RoleOrder[j] == out.failedRole && Rejects(explicit, RoleOrder[j], dims)
               && forall i :: 0 <= i < j ==> !Rejects(explicit, RoleOrder[i], dims);
      assert RoleIndex(out.failedRole) == j;
      forall role | RoleIndex(role) < RoleIndex(out.failedRole) ensures !Rejects(explicit, role, dims) {
        assert RoleOrder[RoleIndex(role)] == role;
      }
    }
  }

  lemma RoleOrderDistinct()
    ensures Distinct(RoleOrder)
  {
  }

  /**
   * The per-role rules of a completed `set_dims`: an explicit name binds its
   * role, overwriting an earlier binding; without one a bound role is kept and
   * an unbound role takes its first present candidate (or stays unbound).
   */
  lemma SetDimsRoleRules(current: RoleBindings, explicit: RoleBindings, dims: seq<string>, role: Role)
    requires SetDimsSpec(current, explicit, dims).Completed?
    ensures var b := SetDimsSpec(current, explicit, dims).roles.Get(role);
            && (explicit.Get(role).Some? ==> b == explicit.Get(role))
            && (explicit.Get(role).None? && current.Get(role).Some? ==> b == current.Get(role))
            && (explicit.Get(role).None? && current.Get(role).None? ==> b == FirstPresent(Candidates(role), dims))
  {
    RoleOrderDistinct();
    SetDimsFailsIff(current, explicit, dims);
    ApplyRolesAt(RoleOrder, current, explicit, dims, role);
    var k := RoleIndex(role);
    forall j | 0 <= j <= k ensures !Rejects(explicit, RoleOrder[j], dims) {
    }
  }

  /** Without an explicit name, a bound role survives every call, even one that raises. */
  lemma SetDimsKeepsBound(current: RoleBindings, explicit: RoleBindings, dims: seq<string>, role: Role)
    requires explicit.Get(role).None? && current.Get(role).Some?
    ensures SetDimsSpec(current, explicit, dims).roles.Get(role) == current.Get(role)
  {
    RoleOrderDistinct();
    ApplyRolesAt(RoleOrder, current, explicit, dims, role);
    assert RoleOrder[RoleIndex(role)] == role;
  }

  /** A failed call keeps the roles before the failing one rebound and the rest untouched. */
  lemma SetDimsPartialFailure(current: RoleBindings, explicit: RoleBindings, dims: seq<string>, role: Role)
    requires SetDimsSpec(current, explicit, dims).Failed?
    ensures var out := SetDimsSpec(current, explicit, dims);
            RoleIndex(role) >= RoleIndex(out.failedRole) ==> out.roles.Get(role) == current.Get(role)
    ensures var out := SetDimsSpec(current, explicit, dims);
            RoleIndex(role) < RoleIndex(out.failedRole) ==>
              out.roles.Get(role) == StepRole(current.Get(role), explicit.Get(role), dims, Candidates(role)).value
  {
    RoleOrderDistinct();
    SetDimsFailsIff(current, explicit, dims);
    ApplyRolesAt(RoleOrder, current, explicit, dims, role);
    var out := SetDimsSpec(current, explicit, dims);
    var k := RoleIndex(role);
    var f := RoleIndex(out.failedRole);
    if k >= f {
      assert Rejects(explicit, RoleOrder[f], dims);
    } else {
      forall j | 0 <= j <= k ensures !Rejects(explicit, RoleOrder[j], dims) {
      }
    }
  }

  /** `set_dims()` with no arguments never raises. */
  lemma SetDimsNoArgsCompletes(current: RoleBindings, dims: seq<string>)
    ensures SetDimsSpec(current, Unbound, dims).Completed?
  {
    SetDimsFailsIff(current, Unbound, dims);
  }

  /** Repeating `set_dims()` with no arguments leaves the four bindings as they were. */
  lemma SetDimsIdempotent(current: RoleBindings, dims: seq<string>)
    ensures var once := SetDimsSpec(current, Unbound, dims);
            once.Completed? && SetDimsSpec(once.roles, Unbound, dims) == once
  {
    var once := SetDimsSpec(current, Unbound, dims);
    SetDimsNoArgsCompletes(current, dims);
    SetDimsNoArgsCompletes(once.roles, dims);
    var twice := SetDimsSpec(once.roles, Unbound, dims);
    forall role ensures twice.roles.Get(role) == once.roles.Get(role) {
      SetDimsRoleRules(current, Unbound, dims, role);
      SetDimsRoleRules(once.roles, Unbound, dims, role);
    }
    assert twice.roles == once.roles by {
      assert twice.roles.Get(X) == once.roles.Get(X);
      assert twice.roles.Get(Y) == once.roles.Get(Y);
      assert twice.roles.Get(Vertical) == once.roles.Get(Vertical);
      assert twice.roles.Get(Time) == once.roles.Get(Time);
    }
  }

  /** Bindings that name dimensions of the array still do so after any call. */
  lemma SetDimsBindsWithin(current: RoleBindings, explicit: RoleBindings, dims: seq<string>)
    requires BoundWithin(current, dims)
    ensures BoundWithin(SetDimsSpec(current, explicit, dims).roles, dims)
  {
    RoleOrderDistinct();
    SetDimsFailsIff(current, explicit, dims);
    var out := SetDimsSpec(current, explicit, dims);
    forall role | out.roles.Get(role).Some? ensures out.roles.Get(role).value in dims {
      ApplyRolesAt(RoleOrder, current, explicit, dims, role);
      var k := RoleIndex(role);
      if forall j :: 0 <= j <= k ==> !Rejects(explicit, RoleOrder[j], dims) {
        assert !Rejects(explicit, RoleOrder[k], dims);
      }
    }
  }

  /** The last role, in `RoleOrder`, bound to physical name `n`. */
  function LastRoleOf(b: RoleBindings, n: string): (r: Option<Role>)
    ensures r.None? <==> forall role :: b.Get(role) != Some(n)
    ensures r.Some? ==> b.Get(r.value) == Some(n)
                        && forall later :: RoleIndex(later) > RoleIndex(r.value) ==> b.Get(later) != Some(n)
  {
    if b.time == Some(n) then assert b.Get(Time) == Some(n); Some(Time)
    else if b.vertical == Some(n) then assert b.Get(Vertical) == Some(n); Some(Vertical)
    else if b.y == Some(n) then assert b.Get(Y) == Some(n); Some(Y)
    else if b.x == Some(n) then assert b.Get(X) == Some(n); Some(X)
    else None
  }

  /**
   * The role map built by the `dim_map` property: physical name -> role name,
   * filled in the order x, y, vertical, time, so a later role overwrites an
   * earlier one bound to the same physical name.
   */
  function RoleMap(b: RoleBindings): (m: map<string, string>)
    ensures m.Values <= RoleNames
    ensures forall n :: n in m <==> LastRoleOf(b, n).Some?
    ensures forall n :: n in m ==> m[n] == RoleName(LastRoleOf(b, n).value)
  {
    var m0: map<string, string> := map[];
    var m1 := if b.x.Some? then m0[b.x.value := "x"] else m0;
    var m2 := if b.y.Some? then m1[b.y.value := "y"] else m1;
    var m3 := if b.vertical.Some? then m2[b.vertical.value := "vertical"] else m2;
    if b.time.Some? then m3[b.time.value := "time"] else m3
  }

  /** Exactly the bound names are keys; a bound role whose name no later role shares maps to its own role name. */
  lemma RoleMapLastWins(b: RoleBindings, role: Role)
    ensures b.Get(role).Some? ==> b.Get(role).value in RoleMap(b)
    ensures b.Get(role).Some? && (forall later :: RoleIndex(later) > RoleIndex(role) ==> b.Get(later) != b.Get(role))
            ==> RoleMap(b)[b.Get(role).value] == RoleName(role)
  {
    if b.Get(role).Some? {
      var n := b.Get(role).value;
      var last := LastRoleOf(b, n);
      assert last.Some?;
      if forall later :: RoleIndex(later) > RoleIndex(role) ==> b.Get(later) != b.Get(role) {
        assert RoleIndex(last.value) <= RoleIndex(role);
        assert RoleIndex(last.value) >= RoleIndex(role);
        assert last.value == role;
      }
    }
  }

  /** Distinct physical names are never mapped to the same role name. */
  lemma RoleMapInjective(b: RoleBindings, n1: string, n2: string)
    requires n1 in RoleMap(b) && n2 in RoleMap(b) && n1 != n2
    ensures RoleMap(b)[n1] != RoleMap(b)[n2]
  {
    var r1 := LastRoleOf(b, n1).value;
    var r2 := LastRoleOf(b, n2).value;
    assert r1 != r2;
  }

  /** `dim_map.get(dname, dname)`. */
  function Rename(m: map<string, string>, d: string): string
  {
    if d in m then m[d] else d
  }

  /** The `dims` property: the physical names, in order, each renamed through the role map. */
  function PreferredDims(dims: seq<string>, m: map<string, string>): (r: seq<string>)
    ensures |r| == |dims|
    ensures forall i :: 0 <= i < |dims| ==> r[i] == Rename(m, dims[i])
  {
    seq(|dims|, i requires 0 <= i < |dims| => Rename(m, dims[i]))
  }

  /**
   * With the role map of some bindings, the renamed `dims` keep every bound
   * dimension's position under its role name and every other name as it is;
   * they stay distinct when no unbound dimension is itself called like a role
   * that another dimension now takes.
   */
  lemma PreferredDimsDistinct(dims: seq<string>, b: RoleBindings)
    requires Distinct(dims)
    requires forall i :: 0 <= i < |dims| && dims[i] !in RoleMap(b) ==> dims[i] !in RoleMap(b).Values
    ensures Distinct(PreferredDims(dims, RoleMap(b)))
  {
    var m := RoleMap(b);
    var r := PreferredDims(dims, m);
    forall i, j | 0 <= i < j < |r| ensures r[i] != r[j] {
      if dims[i] in m && dims[j] in m {
        RoleMapInjective(b, dims[i], dims[j]);
      } else if dims[i] in m {
        assert r[i] in m.Values;
      } else if dims[j] in m {
        assert r[j] in m.Values;
      }
    }
  }

  /** On dimensions ("x", "a") with nothing bound, inference binds only x, to "x". */
  lemma CollisionInferred()
    ensures SetDimsSpec(Unbound, Unbound, ["x", "a"]) == Completed(RoleBindings(Some("x"), None, None, None))
  {
    var dims := ["x", "a"];
    assert FirstPresent(["y"], dims) == None;
    assert FirstPresent(["z", "vertical", "pressure_level"], dims) == None by {
      assert FirstPresent(["pressure_level"], dims) == None;
      assert FirstPresent(["vertical", "pressure_level"], dims) == None;
    }
    assert FirstPresent(["time", "t"], dims) == None by {
      assert FirstPresent(["t"], dims) == None;
    }
    assert RoleOrder[1..] == [Y, Vertical, Time];
    assert RoleOrder[1..][1..] == [Vertical, Time];
    assert RoleOrder[1..][1..][1..] == [Time];
    assert RoleOrder[1..][1..][1..][1..] == [];
  }

  /** Binding x explicitly to "a" on those dimensions then moves x to "a" and changes nothing else. */
  lemma CollisionRebound()
    ensures SetDimsSpec(RoleBindings(Some("x"), None, None, None), Unbound.With(X, Some("a")), ["x", "a"])
            == Completed(RoleBindings(Some("a"), None, None, None))
  {
    assert RoleOrder[1..] == [Y, Vertical, Time];
    assert RoleOrder[1..][1..] == [Vertical, Time];
    assert RoleOrder[1..][1..][1..] == [Time];
    assert RoleOrder[1..][1..][1..][1..] == [];
  }

  /**
   * The renamed `dims` can repeat a name: an array with dimensions ("x", "a")
   * whose x role is then bound explicitly to "a" reports ("x", "x").
   */
  lemma PreferredDimsCollision()
    ensures var dims := ["x", "a"];
            var inferred := SetDimsSpec(Unbound, Unbound, dims);
            var rebound := SetDimsSpec(inferred.roles, Unbound.With(X, Some("a")), dims);
            rebound.Completed? && PreferredDims(dims, RoleMap(rebound.roles)) == ["x", "x"]
  {
    CollisionInferred();
    CollisionRebound();
    var m := RoleMap(RoleBindings(Some("a"), None, None, None));
    assert m == map["a" := "x"];
    assert PreferredDims(["x", "a"], m) == ["x", "x"];
  }

  /**
   * No role is inferred from position: on dimensions ("b", "a") nothing is
   * bound, so the renamed `dims` stay ("b", "a") rather than ("y", "x").
   */
  lemma NoRowMajorFallback()
    ensures var out := SetDimsSpec(Unbound, Unbound, ["b", "a"]);
            out == Completed(Unbound) && PreferredDims(["b", "a"], RoleMap(out.roles)) == ["b", "a"]
  {
    var dims := ["b", "a"];
    assert FirstPresent(["x"], dims) == None;
    assert FirstPresent(["y"], dims) == None;
    assert FirstPresent(["z", "vertical", "pressure_level"], dims) == None by {
      assert FirstPresent(["pressure_level"], dims) == None;
      assert FirstPresent(["vertical", "pressure_level"], dims) == None;
    }
    assert FirstPresent(["time", "t"], dims) == None by {
      assert FirstPresent(["t"], dims) == None;
    }
    assert ApplyRoles([], Unbound, Unbound, dims) == Completed(Unbound);
    assert [Time][1..] == [];
    assert ApplyRoles([Time], Unbound, Unbound, dims) == Completed(Unbound);
    assert [Vertical, Time][1..] == [Time];
    assert ApplyRoles([Vertical, Time], Unbound, Unbound, dims) == Completed(Unbound);
    assert [Y, Vertical, Time][1..] == [Vertical, Time];
    assert ApplyRoles([Y, Vertical, Time], Unbound, Unbound, dims) == Completed(Unbound);
    assert RoleOrder[1..] == [Y, Vertical, Time];
    assert RoleMap(Unbound) == map[];
  }

  /**
   * The `sizes` property: each physical extent under its renamed key, filled
   * in dimension order so a later dimension overwrites an earlier one with the
   * same renamed key.
   */
  method RenameSizes(dims: seq<string>, shape: seq<nat>, m: map<string, string>) returns (sizes: map<string, nat>)
    requires |dims| == |shape|
    ensures sizes.Keys == set i | 0 <= i < |dims| :: Rename(m, dims[i])
    ensures forall i :: 0 <= i < |dims| && (forall j :: i < j < |dims| ==> Rename(m, dims[j]) != Rename(m, dims[i]))
                        ==> sizes[Rename(m, dims[i])] == shape[i]
    ensures Distinct(PreferredDims(dims, m)) ==>
              forall i :: 0 <= i < |dims| ==> sizes[PreferredDims(dims, m)[i]] == shape[i]
  {
    sizes := map[];
    var k := 0;
    while k < |dims|
      invariant 0 <= k <= |dims|
      invariant sizes.Keys == set i | 0 <= i < k :: Rename(m, dims[i])
      invariant forall i :: 0 <= i < k && (forall j :: i < j < k ==> Rename(m, dims[j]) != Rename(m, dims[i]))
                            ==> sizes[Rename(m, dims[i])] == shape[i]
    {
      sizes := sizes[Rename(m, dims[k]) := shape[k]];
      k := k + 1;
    }
    if Distinct(PreferredDims(dims, m)) {
      var p := PreferredDims(dims, m);
      forall i | 0 <= i < |dims| ensures sizes[p[i]] == shape[i] {
        forall j | i < j < |dims| ensures Rename(m, dims[j]) != Rename(m, dims[i]) {
          assert p[i] != p[j];
        }
      }
    }
  }
}
