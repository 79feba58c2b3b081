/** Role extraction (lib/auth/roles.ts): the roles a user carries in the
    `role`, `roles` and `permissions` entries of their app and user
    metadata, gathered into sets by repeated insertion, and the check that
    a user holds one of several roles. */
module Roles {
  import opened Wrappers
  import opened Text

  /** A metadata entry as the role code sees it: missing, a string, an
      array (each item a string, or `None` for an item of another type) or
      a value of any other type. */
  datatype RoleValue = Missing | Single(s: string) | Many(items: seq<Option<string>>) | Unusable

  /** The three entries of a metadata record that hold roles. */
  datatype Metadata = Metadata(role: RoleValue, roles: RoleValue, permissions: RoleValue)

  /** A signed-in user's two metadata records (either may be absent). */
  datatype User = User(appMetadata: Option<Metadata>, userMetadata: Option<Metadata>)

  /** How a role name is stored: trimmed, then lower-cased. */
  function Normalized(s: string): string {
    ToLower(Trim(s))
  }

  /** A stored role name is never blank, has no whitespace at either end
      and has no upper-case letter. */
  predicate WellFormedRole(r: string) {
    r != "" && HasNoLeadingSpace(r) && HasNoTrailingSpace(r)
    && forall i :: 0 <= i < |r| ==> !IsUpperAscii(r[i])
  }

  lemma NormalizedWellFormed(s: string)
    requires Trim(s) != ""
    ensures WellFormedRole(Normalized(s))
  {
    var t := Trim(s);
    LowerCharSpace(t[0]);
    LowerCharSpace(t[|t| - 1]);
  }

  /** The roles one entry contributes: a non-blank string, or the
      non-blank strings of an array; nothing else. */
  function ValueRoles(v: RoleValue): set<string> {
    match v
    case Single(s) => if Trim(s) != "" then {Normalized(s)} else {}
    case Many(items) => ItemRoles(items, |items|)
    case _ => {}
  }

  /** The role one array item gives: a non-blank string, normalised. */
  function ItemRole(item: Option<string>): set<string> {
    if item.Some? && Trim(item.value) != "" then {Normalized(item.value)} else {}
  }

  /** The roles among the first `n` items of an array. */
  function ItemRoles(items: seq<Option<string>>, n: nat): set<string>
    requires n <= |items|
  {
    if n == 0 then {} else ItemRoles(items, n - 1) + ItemRole(items[n - 1])
  }

  /** Every role an array gives is well formed. */
  lemma {:induction false} ItemRolesWellFormed(items: seq<Option<string>>, n: nat)
    requires n <= |items|
    ensures forall r :: r in ItemRoles(items, n) ==> WellFormedRole(r)
  {
    if n > 0 {
      ItemRolesWellFormed(items, n - 1);
      var item := items[n - 1];
      if item.Some? && Trim(item.value) != "" {
        NormalizedWellFormed(item.value);
      }
    }
  }

  /** The roles of one metadata record; an absent record has none. */
  function SourceRoles(source: Option<Metadata>): set<string> {
    match source
    case None => {}
    case Some(m) => ValueRoles(m.role) + ValueRoles(m.roles) + ValueRoles(m.permissions)
  }

  /** The roles of a user: those of both records; an absent user has none. */
  function UserRoles(user: Option<User>): (roles: set<string>)
    ensures user.None? ==> roles == {}
    ensures user.Some? ==> roles == SourceRoles(user.value.appMetadata) + SourceRoles(user.value.userMetadata)
  {
    match user
    case None => {}
    case Some(u) => SourceRoles(u.appMetadata) + SourceRoles(u.userMetadata)
  }

  lemma ValueRolesWellFormed(v: RoleValue)
    ensures forall r :: r in ValueRoles(v) ==> WellFormedRole(r)
  {
    forall r | r in ValueRoles(v)
      ensures WellFormedRole(r)
    {
      match v
      case Single(s) => NormalizedWellFormed(s);
      case Many(items) => ItemRolesWellFormed(items, |items|);
    }
  }

  lemma SourceRolesWellFormed(source: Option<Metadata>)
    ensures forall r :: r in SourceRoles(source) ==> WellFormedRole(r)
  {
    if source.Some? {
      ValueRolesWellFormed(source.value.role);
      ValueRolesWellFormed(source.value.roles);
      ValueRolesWellFormed(source.value.permissions);
    }
  }

  /** Every role a user holds is well formed. */
  lemma UserRolesWellFormed(user: Option<User>)
    ensures forall r :: r in UserRoles(user) ==> WellFormedRole(r)
  {
    if user.Some? {
      SourceRolesWellFormed(user.value.appMetadata);
      SourceRolesWellFormed(user.value.userMetadata);
    }
  }

  // ---------------------------------------------------------------- the set building

  /** `pushValue`: adds the roles of one entry to `collected`. */
  method PushValue(collected: set<string>, value: RoleValue) returns (grown: set<string>)
    ensures grown == collected + ValueRoles(value)
  {
    grown := collected;
    match value {
      case Single(s) =>
        if Trim(s) != "" {
          grown := grown + {Normalized(s)};
        }
      case Many(items) =>
        grown := PushItems(grown, items);
      case _ =>
    }
  }

  /** The array branch of `pushValue`: each non-blank string item is added. */
  method PushItems(collected: set<string>, items: seq<Option<string>>) returns (grown: set<string>)
    ensures grown == collected + ItemRoles(items, |items|)
  {
    grown := collected;
    var i := 0;
    while i < |items|
      invariant 0 <= i <= |items|
      invariant grown == collected + ItemRoles(items, i)
    {
      assert ItemRoles(items, i + 1) == ItemRoles(items, i) + ItemRole(items[i]);
      if items[i].Some? && Trim(items[i].value) != "" {
        grown := grown + {Normalized(items[i].value)};
      }
      i := i + 1;
    }
  }

  /** `collectRoles`. */
  method CollectRoles(source: Option<Metadata>) returns (collected: set<string>)
    ensures collected == SourceRoles(source)
  {
    collected := {};
    if source.None? {
      return;
    }
    var raw := source.value;
    collected := PushValue(collected, raw.role);
    collected := PushValue(collected, raw.roles);
    collected := PushValue(collected, raw.permissions);
  }

  /** Adds every element of `from` to `into`, one at a time. */
  method AddAll(into: set<string>, from: set<string>) returns (r: set<string>)
    ensures r == into + from
  {
    r := into;
    var rest := from;
    while rest != {}
      invariant rest <= from
      invariant r == into + (from - rest)
      decreases |rest|
    {
      var role :| role in rest;
      r := r + {role};
      rest := rest - {role};
    }
  }

  /** `getUserRoles`. */
  method GetUserRoles(user: Option<User>) returns (roles: set<string>)
    ensures roles == UserRoles(user)
  {
    roles := {};
    if user.None? {
      return;
    }
    var appRoles := CollectRoles(user.value.appMetadata);
    var userRoles := CollectRoles(user.value.userMetadata);
    roles := AddAll(roles, appRoles);
    roles := AddAll(roles, userRoles);
  }

  /** `userHasRole`: some required role, lower-cased, is held. A single
      required role is the one-element list. */
  function UserHasRole(user: Option<User>, required: seq<string>): (has: bool)
    ensures has <==> exists i :: 0 <= i < |required| && ToLower(required[i]) in UserRoles(user)
    ensures required == [] ==> !has
    ensures user.None? ==> !has
  {
    exists i :: 0 <= i < |required| && ToLower(required[i]) in UserRoles(user)
  }

  /** Both sides are case-folded and the stored side is trimmed: a stored
      " Admin " satisfies a requirement written "ADMIN". */
  lemma PaddedRoleGrants()
    ensures UserHasRole(Some(User(Some(Metadata(Single(" Admin "), Missing, Missing)), None)), ["ADMIN"])
  {
    var u := Some(User(Some(Metadata(Single(" Admin "), Missing, Missing)), None));
    TrimPadded();
    assert Normalized(" Admin ") == "admin";
    assert ToLower(["ADMIN"][0]) == "admin";
  }

  /** Trimming removes one space on each side of a word without spaces. */
  lemma TrimPadded()
    ensures Trim(" Admin ") == "Admin"
  {
    assert IsSpace(' ');
    assert " Admin "[1..] == "Admin ";
    assert TrimStart(" Admin ") == TrimStart("Admin ");
    assert TrimStart("Admin ") == "Admin ";
    assert "Admin "[..5] == "Admin";
    assert TrimEnd("Admin ") == TrimEnd("Admin");
  }
}
