/** The page guard (middleware.ts): paths under "/admin" need a session
    whose role is admin, paths under "/kiosk" one whose role is admin or
    kiosk; everything else passes. A refused request is sent to the login
    page with a `next` parameter. */
module Middleware {
  import opened Wrappers
  import opened Text
  import opened Roles

  const ADMIN_PREFIX: string := "/admin"
  const KIOSK_PREFIX: string := "/kiosk"

  /** What the guard does with a request. */
  datatype Decision = Continue | ToLogin(next: string)

  /** The session's role: the app metadata's `role` when it is a string,
      else the user metadata's when that is a string, lower-cased but not
      trimmed; no role otherwise. An empty string is a role. */
  function SessionRole(u: User): (role: Option<string>)
    ensures u.appMetadata.Some? && u.appMetadata.value.role.Single? ==>
              role == Some(ToLower(u.appMetadata.value.role.s))
    ensures !(u.appMetadata.Some? && u.appMetadata.value.role.Single?)
            && u.userMetadata.Some? && u.userMetadata.value.role.Single? ==>
              role == Some(ToLower(u.userMetadata.value.role.s))
    ensures role.None? <==> !(u.appMetadata.Some? && u.appMetadata.value.role.Single?)
                            && !(u.userMetadata.Some? && u.userMetadata.value.role.Single?)
  {
    if u.appMetadata.Some? && u.appMetadata.value.role.Single? then Some(ToLower(u.appMetadata.value.role.s))
    else if u.userMetadata.Some? && u.userMetadata.value.role.Single? then Some(ToLower(u.userMetadata.value.role.s))
    else None
  }

  predicate IsAdminPath(pathname: string) { ADMIN_PREFIX <= pathname }
  predicate IsKioskPath(pathname: string) { KIOSK_PREFIX <= pathname }

  /** `middleware`; `session` is the signed-in user, if any. A guarded
      path is let through exactly when there is a session whose role suits
      it; a refused request is sent back to its own path when there is no
      session, otherwise to the entry page of the section it asked for. */
  function Guard(pathname: string, session: Option<User>): (d: Decision)
    ensures d == Continue
            <==> (!IsAdminPath(pathname) && !IsKioskPath(pathname))
                 || (&& session.Some?
                     && (IsAdminPath(pathname) ==> SessionRole(session.value) == Some("admin"))
                     && (IsKioskPath(pathname) ==> SessionRole(session.value) in {Some("admin"), Some("kiosk")}))
    ensures d.ToLogin? && session.None? ==> d.next == pathname
    ensures d.ToLogin? && session.Some? && IsAdminPath(pathname) ==> d.next == ADMIN_PREFIX
    ensures d.ToLogin? && session.Some? && !IsAdminPath(pathname) ==> d.next == KIOSK_PREFIX
  {
    if !IsAdminPath(pathname) && !IsKioskPath(pathname) then Continue
    else if session.None? then ToLogin(pathname)
    else
      var role := SessionRole(session.value);
      if IsAdminPath(pathname) && role != Some("admin") then ToLogin(ADMIN_PREFIX)
      else if IsKioskPath(pathname) && role != Some("admin") && role != Some("kiosk") then ToLogin(KIOSK_PREFIX)
      else Continue
  }

  /** The check is a plain prefix test, so the guard function, were it
      invoked on "/administrator", would redirect it like "/admin/...".
      The route matcher never invokes it on that path. */
  lemma PrefixGuardsSiblings()
    ensures Guard("/administrator", None) == ToLogin("/administrator")
  {
    assert "/administrator"[..6] == ADMIN_PREFIX;
  }

  /** The guard's role check is stricter than `userHasRole`: whoever the
      guard lets into an admin page holds the admin role, ... */
  lemma GuardAdminHasRole(pathname: string, u: User)
    requires IsAdminPath(pathname) && Guard(pathname, Some(u)) == Continue
    ensures UserHasRole(Some(u), ["admin"])
  {
    var m := if u.appMetadata.Some? && u.appMetadata.value.role.Single? then u.appMetadata.value else u.userMetadata.value;
    var s := m.role.s;
    assert ToLower(s) == "admin";
    forall i | 0 <= i < |s|
      ensures !IsSpace(s[i])
    {
      LowerCharSpace(s[i]);
      assert LowerChar(s[i]) == "admin"[i];
    }
    TrimNoSpaces(s);
    assert "admin" in ValueRoles(m.role);
    assert ToLower(["admin"][0]) == "admin";
  }

  /** ... but not the other way round: a padded " Admin " is an admin to
      `userHasRole` and not to the guard. */
  lemma PaddedAdminRefused()
    ensures var u := User(Some(Metadata(Single(" Admin "), Missing, Missing)), None);
            && UserHasRole(Some(u), ["ADMIN"])
            && Guard("/admin", Some(u)) == ToLogin(ADMIN_PREFIX)
  {
    PaddedRoleGrants();
    assert ToLower(" Admin ")[0] == ' ';
  }
}
