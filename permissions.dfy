/** api/permissions.py: the view-level and object-level permission checks,
    each a boolean expression over the request's method and user (and the
    object's author).  Python's `and` binds tighter than `or`, which these
    predicates keep as written. */
module Permissions {
  import opened Models

  /** rest_framework.permissions.SAFE_METHODS */
  const SafeMethods: seq<string> := ["GET", "HEAD", "OPTIONS"]

  /** The request's HTTP method (`verb`) and user. */
  datatype Request = Request(verb: string, user: User)

  predicate IsSafe(req: Request) {
    req.verb in SafeMethods
  }

  /** HasPermission.has_permission */
  predicate HasPermission(req: Request) {
    IsSafe(req) || (IsAuthenticated(req.user) && IsActive(req.user))
  }

  /** AuthorStaffOrReadOnly.has_object_permission, for an object whose
      author is `author`. */
  predicate AuthorStaffOrReadOnly(req: Request, author: User) {
    IsSafe(req) ||
    (IsAuthenticated(req.user) && IsActive(req.user) && (SameUser(req.user, author) || IsStaff(req.user)))
  }

  /** AdminOrReadOnly.has_object_permission (its body; the method is
      declared without the object parameter). */
  predicate AdminOrReadOnly(req: Request) {
    IsSafe(req) || (IsAuthenticated(req.user) && IsActive(req.user) && IsStaff(req.user))
  }

  /** OwnerUserOrReadOnly.has_object_permission: the last `or` is outside
      the conjunction, so `is_staff` alone grants. */
  predicate OwnerUserOrReadOnly(req: Request, author: User) {
    IsSafe(req) || (IsAuthenticated(req.user) && IsActive(req.user) && SameUser(req.user, author)) ||
    IsStaff(req.user)
  }

  /** A safe method is granted by every check, whoever asks. */
  lemma SafeMethodsAlwaysGranted(req: Request, author: User)
    requires IsSafe(req)
    ensures HasPermission(req) && AuthorStaffOrReadOnly(req, author)
    ensures AdminOrReadOnly(req) && OwnerUserOrReadOnly(req, author)
  {
  }

  /** Any other method needs an authenticated, active user; an anonymous
      user is never granted one. */
  lemma UnsafeNeedsActiveUser(req: Request)
    requires !IsSafe(req)
    ensures HasPermission(req) <==> req.user.Registered? && req.user.isActive
  {
  }

  /** Writing to an object needs an active user who is its author or staff. */
  lemma AuthorStaffUnsafeIff(req: Request, author: User)
    requires !IsSafe(req)
    ensures AuthorStaffOrReadOnly(req, author) <==>
      req.user.Registered? && req.user.isActive &&
      ((author.Registered? && author.id == req.user.id) || req.user.isStaff)
  {
  }

  lemma AdminUnsafeIff(req: Request)
    requires !IsSafe(req)
    ensures AdminOrReadOnly(req) <==> req.user.Registered? && req.user.isActive && req.user.isStaff
  {
  }

  /** Every object-level grant of AuthorStaffOrReadOnly is backed by the
      view-level grant, and the admin check is the stricter of the two. */
  lemma ObjectGrantImpliesViewGrant(req: Request, author: User)
    ensures AuthorStaffOrReadOnly(req, author) ==> HasPermission(req)
    ensures AdminOrReadOnly(req) ==> AuthorStaffOrReadOnly(req, author)
    ensures AuthorStaffOrReadOnly(req, author) ==> OwnerUserOrReadOnly(req, author)
  {
  }

  /** OwnerUserOrReadOnly grants more than AuthorStaffOrReadOnly exactly
      for unsafe requests of staff users who are not active: the precedence
      of `or` lets `is_staff` through without the activity check. */
  lemma OwnerGrantsInactiveStaff(req: Request, author: User)
    ensures OwnerUserOrReadOnly(req, author) && !AuthorStaffOrReadOnly(req, author) <==>
      !IsSafe(req) && req.user.Registered? && req.user.isStaff && !req.user.isActive
  {
  }

  /** A deactivated staff member may delete someone else's object under
      OwnerUserOrReadOnly, and may not under AuthorStaffOrReadOnly. */
  lemma InactiveStaffDelete()
    ensures OwnerUserOrReadOnly(Request("DELETE", Registered(2, "s@x", "s", "S", false, true)),
                                Registered(1, "a@x", "a", "A", true, false))
    ensures !AuthorStaffOrReadOnly(Request("DELETE", Registered(2, "s@x", "s", "S", false, true)),
                                   Registered(1, "a@x", "a", "A", true, false))
    ensures !HasPermission(Request("DELETE", Registered(2, "s@x", "s", "S", false, true)))
  {
    assert "DELETE" != "GET" && "DELETE" != "HEAD" && "DELETE" != "OPTIONS";
  }
}
