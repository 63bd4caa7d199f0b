/**
 * The authorization predicates of `AuthService`: super-admin detection,
 * permission checks and application access, over the stored user record
 * (`getUser()` becomes the parameter `user`, `None` when nothing is stored).
 */
module Auth {
  import opened Wrappers
  import opened Strings

  /** A role or permission entry: a bare string, or an object whose `name` may be missing. */
  datatype Entry = Named(s: string) | Record(name: Option<string>)

  /** An entry of the user's `applications` array; either field may be missing. */
  datatype AppRef = AppRef(id: Option<int>, slug: Option<string>)

  /** The application asked about. */
  datatype App = App(id: int, slug: string)

  /**
   * The stored user. A missing `roles` or `permissions` is `None`; `applications`
   * is `None` when it is missing or is not an array.
   */
  datatype StoredUser = StoredUser(
    roles: Option<seq<Entry>>,
    permissions: Option<seq<Entry>>,
    applications: Option<seq<AppRef>>)

  /** `typeof e === 'string' ? e : (e.name || "")` */
  function EntryName(e: Entry): (r: string)
    ensures e.Record? && e.name.None? ==> r == ""
  {
    match e
    case Named(s) => s
    case Record(n) => n.GetOr("")
  }

  /** The lower-cased role names that make a user a super admin. */
  predicate IsAdminRoleName(lower: string) {
    lower == "admin" || lower == "super admin" || lower == "super-admin" || lower == "super_admin"
  }

  /** The permission names that make a user a super admin (compared as written). */
  predicate IsAdminPermissionName(name: string) {
    name == "all-access" || name == "*"
  }

  /** `roles.some(role => IsAdminRoleName(EntryName(role).toLowerCase()))` */
  function AnyAdminRole(roles: seq<Entry>): (r: bool)
    ensures r <==> exists i :: 0 <= i < |roles| && IsAdminRoleName(ToLower(EntryName(roles[i])))
  {
    if roles == [] then false
    else
      var rest := AnyAdminRole(roles[1..]);
      assert rest ==> exists i :: 0 <= i < |roles| && IsAdminRoleName(ToLower(EntryName(roles[i]))) by {
        if rest {
          var j :| 0 <= j < |roles| - 1 && IsAdminRoleName(ToLower(EntryName(roles[1..][j])));
          assert roles[1..][j] == roles[j + 1];
        }
      }
      IsAdminRoleName(ToLower(EntryName(roles[0]))) || rest
  }

  /** `permissions.some(p => IsAdminPermissionName(EntryName(p)))` */
  function AnyAdminPermission(permissions: seq<Entry>): (r: bool)
    ensures r <==> exists i :: 0 <= i < |permissions| && IsAdminPermissionName(EntryName(permissions[i]))
  {
    if permissions == [] then false
    else
      var rest := AnyAdminPermission(permissions[1..]);
      assert rest ==> exists i :: 0 <= i < |permissions| && IsAdminPermissionName(EntryName(permissions[i])) by {
        if rest {
          var j :| 0 <= j < |permissions| - 1 && IsAdminPermissionName(EntryName(permissions[1..][j]));
          assert permissions[1..][j] == permissions[j + 1];
        }
      }
      IsAdminPermissionName(EntryName(permissions[0])) || rest
  }

  /** `permissions.some(p => EntryName(p) === wanted)` */
  function AnyPermissionNamed(permissions: seq<Entry>, wanted: string): (r: bool)
    ensures r <==> exists i :: 0 <= i < |permissions| && EntryName(permissions[i]) == wanted
  {
    if permissions == [] then false
    else
      var rest := AnyPermissionNamed(permissions[1..], wanted);
      assert rest ==> exists i :: 0 <= i < |permissions| && EntryName(permissions[i]) == wanted by {
        if rest {
          var j :| 0 <= j < |permissions| - 1 && EntryName(permissions[1..][j]) == wanted;
          assert permissions[1..][j] == permissions[j + 1];
        }
      }
      EntryName(permissions[0]) == wanted || rest
  }

  /** `a.id === app.id || a.slug === app.slug` */
  predicate AppMatches(a: AppRef, app: App) {
    a.id == Some(app.id) || a.slug == Some(app.slug)
  }

  /** `applications.some(a => AppMatches(a, app))` */
  function AnyAppMatches(apps: seq<AppRef>, app: App): (r: bool)
    ensures r <==> exists i :: 0 <= i < |apps| && AppMatches(apps[i], app)
  {
    if apps == [] then false
    else
      var rest := AnyAppMatches(apps[1..], app);
      assert rest ==> exists i :: 0 <= i < |apps| && AppMatches(apps[i], app) by {
        if rest {
          var j :| 0 <= j < |apps| - 1 && AppMatches(apps[1..][j], app);
          assert apps[1..][j] == apps[j + 1];
        }
      }
      AppMatches(apps[0], app) || rest
  }

  /** `isSuperAdmin` */
  function IsSuperAdmin(user: Option<StoredUser>): (r: bool)
    ensures user.None? ==> !r
    ensures r <==> (user.Some? &&
      ((user.value.roles.Some? &&
          exists i :: 0 <= i < |user.value.roles.value| && IsAdminRoleName(ToLower(EntryName(user.value.roles.value[i])))) ||
       (user.value.permissions.Some? &&
          exists i :: 0 <= i < |user.value.permissions.value| && IsAdminPermissionName(EntryName(user.value.permissions.value[i])))))
  {
    match user
    case None => false
    case Some(u) =>
      (u.roles.Some? && AnyAdminRole(u.roles.value)) ||
      (u.permissions.Some? && AnyAdminPermission(u.permissions.value))
  }

  /** `hasPermission(permission)` */
  function HasPermission(user: Option<StoredUser>, permission: string): (r: bool)
    ensures r <==> (IsSuperAdmin(user) ||
      (user.Some? && user.value.permissions.Some? &&
       exists i :: 0 <= i < |user.value.permissions.value| && EntryName(user.value.permissions.value[i]) == permission))
  {
    if IsSuperAdmin(user) then true
    else match user
      case None => false
      case Some(u) => u.permissions.Some? && AnyPermissionNamed(u.permissions.value, permission)
  }

  /** The permission that grants access to an application when the user lists none. */
  function AccessPermission(slug: string): string {
    "access_" + slug
  }

  /** `canAccessApplication(app)` */
  function CanAccessApplication(user: Option<StoredUser>, app: App): (r: bool)
    ensures r <==> (IsSuperAdmin(user) ||
      (user.Some? && user.value.applications.Some? &&
       exists i :: 0 <= i < |user.value.applications.value| && AppMatches(user.value.applications.value[i], app)) ||
      (user.Some? && user.value.applications.None? && HasPermission(user, "access_" + app.slug)))
  {
    if IsSuperAdmin(user) then true
    else match user
      case None => false
      case Some(u) =>
        if u.applications.Some? then AnyAppMatches(u.applications.value, app)
        else HasPermission(user, AccessPermission(app.slug))
  }

  // ---------------------------------------------------------------------
  // Properties
  // ---------------------------------------------------------------------

  /** With no stored user, every check is false. */
  lemma NoUserNoAccess(permission: string, app: App)
    ensures !IsSuperAdmin(None) && !HasPermission(None, permission) && !CanAccessApplication(None, app)
  {
  }

  /** A super admin holds every permission and may open every application. */
  lemma SuperAdminMayDoAnything(user: Option<StoredUser>, permission: string, app: App)
    requires IsSuperAdmin(user)
    ensures HasPermission(user, permission) && CanAccessApplication(user, app)
  {
  }

  /** For anyone else, a permission is held exactly when an entry carries that exact name. */
  lemma PermissionIsExactName(user: Option<StoredUser>, permission: string)
    requires !IsSuperAdmin(user)
    ensures HasPermission(user, permission) <==>
      user.Some? && user.value.permissions.Some? &&
      exists i :: 0 <= i < |user.value.permissions.value| && EntryName(user.value.permissions.value[i]) == permission
  {
  }

  /** A non-super-admin with an `applications` array gets access by id or slug only; permissions play no part. */
  lemma ApplicationsListDecides(u: StoredUser, app: App)
    requires !IsSuperAdmin(Some(u)) && u.applications.Some?
    ensures CanAccessApplication(Some(u), app) <==>
      exists i :: 0 <= i < |u.applications.value| && AppMatches(u.applications.value[i], app)
    ensures forall ps :: !IsSuperAdmin(Some(u.(permissions := ps))) ==>
      CanAccessApplication(Some(u.(permissions := ps)), app) == CanAccessApplication(Some(u), app)
  {
  }

  /** Without an `applications` array, access is the permission `access_<slug>`. */
  lemma AccessBySlugPermission(u: StoredUser, app: App)
    requires !IsSuperAdmin(Some(u)) && u.applications.None?
    ensures CanAccessApplication(Some(u), app) <==>
      u.permissions.Some? &&
      exists i :: 0 <= i < |u.permissions.value| && EntryName(u.permissions.value[i]) == "access_" + app.slug
  {
  }

  /** Role names are compared without regard to case: roles with the same lower-case names decide alike. */
  lemma {:induction false} RoleNamesIgnoreCase(u: StoredUser, roles: seq<Entry>, roles': seq<Entry>)
    requires u.roles == Some(roles) && |roles'| == |roles|
    requires forall i :: 0 <= i < |roles| ==> ToLower(EntryName(roles'[i])) == ToLower(EntryName(roles[i]))
    ensures IsSuperAdmin(Some(u.(roles := Some(roles')))) == IsSuperAdmin(Some(u))
  {
    if AnyAdminRole(roles) {
      var i :| 0 <= i < |roles| && IsAdminRoleName(ToLower(EntryName(roles[i])));
      assert IsAdminRoleName(ToLower(EntryName(roles'[i])));
    }
    if AnyAdminRole(roles') {
      var i :| 0 <= i < |roles'| && IsAdminRoleName(ToLower(EntryName(roles'[i])));
      assert IsAdminRoleName(ToLower(EntryName(roles[i])));
    }
  }

  /** An upper-case "ADMIN" role makes a super admin, but an upper-case "ALL-ACCESS" permission does not. */
  lemma RoleCaseIgnoredPermissionCaseKept()
    ensures IsSuperAdmin(Some(StoredUser(Some([Named("ADMIN")]), None, None)))
    ensures !IsSuperAdmin(Some(StoredUser(None, Some([Named("ALL-ACCESS")]), None)))
  {
    var lower := ToLower("ADMIN");
    assert lower[0] == 'a' && lower[1] == 'd' && lower[2] == 'm' && lower[3] == 'i' && lower[4] == 'n';
    assert lower == "admin";
    assert AnyAdminRole([Named("ADMIN")]) by {
      assert IsAdminRoleName(ToLower(EntryName([Named("ADMIN")][0])));
    }
    var upper := EntryName(Named("ALL-ACCESS"));
    assert upper[0] == 'A';
    assert !IsAdminPermissionName(upper);
  }
}
