/** `RolesGuard`: the role check run before a handler, driven by `@Roles(...)` metadata. */
module RolesGuard {
  import opened Wrappers

  /** The authenticated principal attached to the request, if any; its `role` may be absent. */
  datatype Principal = Principal(role: Option<string>)

  /** `Roles(...roles)`: the metadata stored under the `roles` key. */
  function Roles(roles: seq<string>): (m: Option<seq<string>>)
    ensures m.Some? && m.value == roles
  {
    Some(roles)
  }

  /** `getAllAndOverride` over [handler, class]: the first target that defines the metadata
      wins, even when the list it defines is empty. */
  function GetAllAndOverride(handler: Option<seq<string>>, cls: Option<seq<string>>): (r: Option<seq<string>>)
    ensures handler.Some? ==> r == handler
    ensures handler.None? ==> r == cls
  {
    if handler.Some? then handler else cls
  }

  /** `required.includes(user?.role)`: a user is present and its role is one of the list. */
  predicate Listed(user: Option<Principal>, roles: seq<string>) {
    user.Some? && user.value.role.Some? && user.value.role.value in roles
  }

  /** `canActivate`: the handler's roles when it has metadata, else the class's; no list or an
      empty one lets every request through, otherwise only a listed role passes. */
  function CanActivate(handler: Option<seq<string>>, cls: Option<seq<string>>, user: Option<Principal>): (allowed: bool)
    ensures handler.Some? ==> (allowed <==> |handler.value| == 0 || Listed(user, handler.value))
    ensures handler.None? && cls.Some? ==> (allowed <==> |cls.value| == 0 || Listed(user, cls.value))
    ensures handler.None? && cls.None? ==> allowed
  {
    var required := GetAllAndOverride(handler, cls);
    if required.None? || |required.value| == 0 then true
    else Listed(user, required.value)
  }

  /** A handler decorated with `@Roles(...rs)` is guarded by exactly that list, whatever the
      class declares: no roles lets everyone in, otherwise only a user whose role is listed. */
  lemma RolesGuardHandler(rs: seq<string>, cls: Option<seq<string>>, user: Option<Principal>)
    ensures CanActivate(Roles(rs), cls, user) <==> |rs| == 0 || Listed(user, rs)
  {
  }

  /** A class decorated with `@Roles(...rs)` guards each undecorated handler with that list. */
  lemma RolesGuardClass(rs: seq<string>, user: Option<Principal>)
    ensures CanActivate(None, Roles(rs), user) <==> |rs| == 0 || Listed(user, rs)
  {
  }

  /** No metadata, or an empty list, lets every request through. */
  lemma NoRolesAllows(handler: Option<seq<string>>, cls: Option<seq<string>>, user: Option<Principal>)
    requires GetAllAndOverride(handler, cls) in {None, Some([])}
    ensures CanActivate(handler, cls, user)
  {
  }

  /** With a non-empty list the request passes exactly when the user's role is listed. */
  lemma RolesDecide(handler: Option<seq<string>>, cls: Option<seq<string>>, user: Option<Principal>)
    requires GetAllAndOverride(handler, cls).Some? && |GetAllAndOverride(handler, cls).value| > 0
    ensures CanActivate(handler, cls, user)
            <==> Listed(user, GetAllAndOverride(handler, cls).value)
    ensures user.None? ==> !CanActivate(handler, cls, user)
  {
  }

  /** Roles set on the handler override those set on the class, in both directions. */
  lemma HandlerOverridesClass(hroles: seq<string>, cls: Option<seq<string>>, user: Option<Principal>)
    ensures CanActivate(Some(hroles), cls, user) == CanActivate(Some(hroles), None, user)
  {
  }
}
