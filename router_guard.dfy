/** The web client's navigation guard (`router.beforeEach`): given the target
    route and the auth store's getters it makes exactly one decision — go on,
    go to the login page remembering the target, or go home. */
module RouterGuard {
  import opened Common

  /** The `meta` of one route record; `roles` is absent on most routes. */
  datatype RouteMeta = RouteMeta(requiresAuth: bool, guest: bool, roles: Option<seq<string>>)

  /** The target: its full path and the records it matched, parents first and
      the route itself last. */
  datatype Target = Target(fullPath: string, matched: seq<RouteMeta>)

  /** The argument of the single `next` call. */
  datatype Next = Proceed | ToLogin(redirect: string) | ToHome

  /** `to.meta.roles`: vue-router merges the meta of the matched records from
      parent to child, so the roles are those of the deepest record that lists
      any, and absent when none does. */
  function MergedRoles(matched: seq<RouteMeta>): (r: Option<seq<string>>)
    ensures r.None? <==> forall i :: 0 <= i < |matched| ==> matched[i].roles.None?
    ensures r.Some? ==>
      exists i :: 0 <= i < |matched| && matched[i].roles == r && forall j :: i < j < |matched| ==> matched[j].roles.None?
  {
    if matched == [] then None
    else
      var n := |matched| - 1;
      if matched[n].roles.Some? then matched[n].roles
      else
        var front := matched[..n];
        var r := MergedRoles(front);
        assert forall i :: 0 <= i < n ==> front[i] == matched[i];
        assert r.Some? ==> exists i :: 0 <= i < n && front[i].roles == r && forall j :: i < j < n ==> front[j].roles.None?;
        r
  }

  /** Some matched record asks for a login. */
  predicate RequiresAuth(to: Target)
  {
    exists i :: 0 <= i < |to.matched| && to.matched[i].requiresAuth
  }

  /** Some matched record is for guests only. */
  predicate GuestOnly(to: Target)
  {
    exists i :: 0 <= i < |to.matched| && to.matched[i].guest
  }

  /** The target's merged meta lists roles. */
  predicate RestrictsRoles(to: Target)
  {
    var roles := MergedRoles(to.matched);
    roles.Some? && |roles.value| > 0
  }

  /** The user holds one of the roles of the target's merged meta. */
  predicate HoldsListedRole(to: Target, userRoles: seq<string>)
  {
    var roles := MergedRoles(to.matched);
    roles.Some? && exists i :: 0 <= i < |roles.value| && roles.value[i] in userRoles
  }

  /** The guard: protected routes need a login, guest routes need its absence,
      role-restricted protected routes need one of the roles. */
  function Guard(to: Target, isLoggedIn: bool, userRoles: seq<string>): (n: Next)
    ensures n.ToLogin? <==> RequiresAuth(to) && !isLoggedIn
    ensures n.ToLogin? ==> n.redirect == to.fullPath
    ensures n == ToHome <==>
      isLoggedIn && (GuestOnly(to) || (RequiresAuth(to) && RestrictsRoles(to) && !HoldsListedRole(to, userRoles)))
    ensures n == Proceed <==>
      (!RequiresAuth(to) && !(GuestOnly(to) && isLoggedIn)) ||
      (RequiresAuth(to) && isLoggedIn && !GuestOnly(to) && (!RestrictsRoles(to) || HoldsListedRole(to, userRoles)))
  {
    if RequiresAuth(to) && !isLoggedIn then ToLogin(to.fullPath)
    else if GuestOnly(to) && isLoggedIn then ToHome
    else if RequiresAuth(to) && isLoggedIn && RestrictsRoles(to) then
      if HoldsListedRole(to, userRoles) then Proceed else ToHome
    else Proceed
  }

  /** A route that lists its own roles is guarded by those alone: what the
      parent records say about roles makes no difference, as long as the
      login and guest flags stay the same. */
  lemma OwnRolesOverrideParents(to: Target, parents: seq<RouteMeta>, isLoggedIn: bool, userRoles: seq<string>)
    requires |to.matched| > 0 && to.matched[|to.matched| - 1].roles.Some?
    requires forall i :: 0 <= i < |parents| ==> !parents[i].requiresAuth && !parents[i].guest
    ensures Guard(to.(matched := parents + to.matched), isLoggedIn, userRoles) == Guard(to, isLoggedIn, userRoles)
  {
    var to2 := to.(matched := parents + to.matched);
    assert to2.matched[|to2.matched| - 1] == to.matched[|to.matched| - 1];
    assert MergedRoles(to2.matched) == MergedRoles(to.matched);
    assert RequiresAuth(to2) <==> RequiresAuth(to) by {
      if RequiresAuth(to) {
        var i :| 0 <= i < |to.matched| && to.matched[i].requiresAuth;
        assert to2.matched[|parents| + i] == to.matched[i];
      }
    }
    assert GuestOnly(to2) <==> GuestOnly(to) by {
      if GuestOnly(to) {
        var i :| 0 <= i < |to.matched| && to.matched[i].guest;
        assert to2.matched[|parents| + i] == to.matched[i];
      }
    }
  }

  /** A protected child route that lists no roles inherits its parent's: a
      logged-in user holding none of them is sent home. */
  lemma ParentRolesInherited(path: string, parent: RouteMeta, child: RouteMeta, userRoles: seq<string>)
    requires !parent.guest && !child.guest && child.requiresAuth && child.roles.None?
    requires parent.roles.Some? && |parent.roles.value| > 0
    requires forall i :: 0 <= i < |parent.roles.value| ==> parent.roles.value[i] !in userRoles
    ensures Guard(Target(path, [parent, child]), true, userRoles) == ToHome
  {
    var to := Target(path, [parent, child]);
    assert to.matched[1].requiresAuth;
    assert MergedRoles(to.matched) == MergedRoles([parent]) == parent.roles by {
      assert to.matched[..1] == [parent];
      assert [parent][..0] == [];
    }
  }

  /** A logged-in user reaches a protected, non-guest route without a role list. */
  lemma LoggedInReachesUnrestricted(to: Target, userRoles: seq<string>)
    requires RequiresAuth(to) && !GuestOnly(to) && !RestrictsRoles(to)
    ensures Guard(to, true, userRoles) == Proceed
  {
  }

  /** Holding more roles never turns a permitted navigation into a refusal. */
  lemma MoreRolesNeverHurt(to: Target, isLoggedIn: bool, roles: seq<string>, extra: seq<string>)
    requires Guard(to, isLoggedIn, roles) == Proceed
    ensures Guard(to, isLoggedIn, roles + extra) == Proceed
  {
    if RequiresAuth(to) && isLoggedIn && RestrictsRoles(to) {
      var listed := MergedRoles(to.matched).value;
      var i :| 0 <= i < |listed| && listed[i] in roles;
      assert listed[i] in roles + extra;
    }
  }
}
