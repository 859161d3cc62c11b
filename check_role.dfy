/**
 * The role middleware (app/Http/Middleware/CheckRole.php): a request without
 * an authenticated user is refused with 401; otherwise the route's parameter
 * is exploded on `:` and the user passes on when its role name is one of the
 * pieces, and is refused with 403 when it is not.
 */
module RoleMiddleware {
  import opened Wrappers
  import opened Domain
  import opened Strings

  /** What the middleware does with a request: hand it to `$next`, or answer itself. */
  datatype Outcome = Next | Deny(code: Code)

  /** The allowed role names of a middleware parameter such as `admin:supervisor`. */
  function AllowedRoles(roles: string): seq<string>
  {
    Split(roles, ':')
  }

  /** `handle`. `actor` is None when `auth()->check()` fails. */
  function Handle(actor: Option<Actor>, roles: string): (o: Outcome)
    ensures actor.None? ==> o == Deny(Unauthenticated)
    ensures actor.Some? ==> o != Deny(Unauthenticated)
    ensures o.Deny? ==> o.code == Unauthenticated || o.code == Forbidden
  {
    if actor.None? then Deny(Unauthenticated)
    else if RoleName(actor.value.role) in AllowedRoles(roles) then Next
    else Deny(Forbidden)
  }

  /** The names of a list of roles, in order. */
  function RoleNames(rs: seq<Role>): (names: seq<string>)
    ensures |names| == |rs|
    ensures forall i :: 0 <= i < |rs| ==> names[i] == RoleName(rs[i])
  {
    seq(|rs|, i requires 0 <= i < |rs| => RoleName(rs[i]))
  }

  /** Distinct roles have distinct names, and no name contains the separator. */
  lemma RoleNameInjective(a: Role, b: Role)
    ensures RoleName(a) == RoleName(b) ==> a == b
    ensures ':' !in RoleName(a)
  {
  }

  /**
   * For a parameter written as the `:`-join of a non-empty list of roles,
   * the middleware lets a user through exactly when its role is in the list,
   * refuses every other signed-in user with 403, and refuses a request
   * without a user with 401.
   */
  lemma {:induction false} JoinedRolesAdmitExactly(allowed: seq<Role>, actor: Option<Actor>)
    requires |allowed| >= 1
    ensures var o := Handle(actor, Join(RoleNames(allowed), ':'));
      && (o == Next <==> actor.Some? && actor.value.role in allowed)
      && (actor.Some? && actor.value.role !in allowed ==> o == Deny(Forbidden))
  {
    var names := RoleNames(allowed);
    forall i | 0 <= i < |names|
      ensures ':' !in names[i]
    {
      RoleNameInjective(allowed[i], allowed[i]);
    }
    SplitJoin(names, ':');
    assert AllowedRoles(Join(names, ':')) == names;
    if actor.Some? {
      var r := actor.value.role;
      if RoleName(r) in names {
        var i :| 0 <= i < |names| && names[i] == RoleName(r);
        RoleNameInjective(r, allowed[i]);
      }
      if r in allowed {
        var i :| 0 <= i < |allowed| && allowed[i] == r;
        assert names[i] == RoleName(r);
      }
    }
  }

  /** `check.role:admin` admits admins only. */
  lemma AdminAdmitsOnlyAdmin(actor: Option<Actor>)
    ensures Handle(actor, "admin") == Next <==> actor.Some? && actor.value.role == Admin
  {
    var names := RoleNames([Admin]);
    assert names == ["admin"];
    assert Join(names, ':') == "admin";
    JoinedRolesAdmitExactly([Admin], actor);
  }

  /** `check.role:admin:supervisor` admits admins and supervisors and refuses customers with 403. */
  lemma StaffAdmitsAdminAndSupervisor(actor: Option<Actor>)
    ensures Handle(actor, "admin:supervisor") == Next <==> actor.Some? && actor.value.role != Customer
    ensures actor.Some? && actor.value.role == Customer ==> Handle(actor, "admin:supervisor") == Deny(Forbidden)
  {
    StaffRoles();
  }

  /** The parameter of the table routes names the admin and the supervisor role. */
  lemma StaffRoles()
    ensures AllowedRoles("admin:supervisor") == ["admin", "supervisor"]
  {
    SplitTwoPieces("admin", "supervisor");
    assert "admin" + [':'] + "supervisor" == "admin:supervisor";
  }

  /** Two separator-free names joined by `:` explode back into the two names. */
  lemma SplitTwoPieces(a: string, b: string)
    requires ':' !in a && ':' !in b
    ensures AllowedRoles(a + [':'] + b) == [a, b]
  {
    SplitNoSeparator(b, ':');
    SplitAfterPiece(a, ':', b);
  }

  /** An empty parameter explodes to one empty name, which no role has: every signed-in user gets 403. */
  lemma EmptyParameterAdmitsNobody(actor: Actor)
    ensures Handle(Some(actor), "") == Deny(Forbidden)
  {
    assert AllowedRoles("") == [""];
  }
}
