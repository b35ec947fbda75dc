/**
 * The object-level permission predicates of api/permissions.py. A request
 * carries its method and its user; Django's anonymous user is a principal
 * whose `authenticated` flag is false.
 */
module Permissions {
  import opened Domain

  datatype HttpMethod = GET | HEAD | OPTIONS | POST | PUT | PATCH | DELETE

  /** rest_framework's SAFE_METHODS. */
  predicate IsSafe(m: HttpMethod) {
    m == GET || m == HEAD || m == OPTIONS
  }

  /** The attributes of request.user the predicates read. */
  datatype Principal = Principal(id: UserId, authenticated: bool, active: bool, staff: bool)

  datatype Request = Request(verb: HttpMethod, user: Principal)

  /**
   * OwnerAdminOrReadOnly.has_object_permission on a recipe. `request.user ==
   * obj.author` compares primary keys, and an anonymous user equals no user.
   */
  predicate OwnerAdminOrReadOnly(req: Request, obj: Recipe) {
    IsSafe(req.verb)
    || (req.user.authenticated && req.user.active && (req.user.id == obj.author || req.user.staff))
  }

  /** AdminOrReadOnly.has_object_permission; the object is not consulted. */
  predicate AdminOrReadOnly(req: Request, obj: Recipe) {
    IsSafe(req.verb) || (req.user.authenticated && req.user.active && req.user.staff)
  }

  lemma SafeMethodsAlwaysPermitted(req: Request, obj: Recipe)
    requires IsSafe(req.verb)
    ensures OwnerAdminOrReadOnly(req, obj) && AdminOrReadOnly(req, obj)
  {
  }

  lemma OwnerAdminUnsafe(req: Request, obj: Recipe)
    requires !IsSafe(req.verb)
    ensures OwnerAdminOrReadOnly(req, obj) <==>
              req.user.authenticated && req.user.active && (req.user.id == obj.author || req.user.staff)
  {
  }

  lemma AdminUnsafe(req: Request, obj: Recipe, other: Recipe)
    requires !IsSafe(req.verb)
    ensures AdminOrReadOnly(req, obj) <==> req.user.authenticated && req.user.active && req.user.staff
    ensures AdminOrReadOnly(req, obj) == AdminOrReadOnly(req, other)
  {
  }

  /** Neither the staff flag nor authorship lets an anonymous or inactive user change anything. */
  lemma AnonymousOrInactiveReadOnly(req: Request, obj: Recipe)
    requires !IsSafe(req.verb)
    requires !req.user.authenticated || !req.user.active
    ensures !OwnerAdminOrReadOnly(req, obj) && !AdminOrReadOnly(req, obj)
  {
  }

  lemma AdminImpliesOwnerAdmin(req: Request, obj: Recipe)
    requires AdminOrReadOnly(req, obj)
    ensures OwnerAdminOrReadOnly(req, obj)
  {
  }

  /** The owner permission is strictly wider: an active author who is not staff may change the recipe. */
  lemma OwnerAdminIsWider(obj: Recipe)
    ensures var req := Request(PATCH, Principal(obj.author, true, true, false));
            OwnerAdminOrReadOnly(req, obj) && !AdminOrReadOnly(req, obj)
  {
  }
}
