/** HTTP status codes the controllers answer with, and the ownership and
    visibility rules they share. */
module Access {
  import opened Wrappers
  import opened Records

  const Ok: nat := 200
  const CreatedStatus: nat := 201
  const BadRequest: nat := 400
  const Unauthorized: nat := 401
  const Forbidden: nat := 403
  const NotFound: nat := 404
  const PayloadTooLarge: nat := 413
  const ServerError: nat := 500

  /** `folder.user_id === user.id || user.role === 'admin'`. */
  function CanManageFolder(f: Folder, p: Principal): (r: bool)
    ensures IsAdmin(p) ==> r
    ensures !IsAdmin(p) ==> (r <==> f.userId == p.id)
  {
    f.userId == p.id || IsAdmin(p)
  }

  /** `image.user_id === user.id || user.role === 'admin'`. */
  function CanManageImage(img: Image, p: Principal): (r: bool)
    ensures IsAdmin(p) ==> r
    ensures !IsAdmin(p) ==> (r <==> img.userId == p.id)
  {
    img.userId == p.id || IsAdmin(p)
  }

  /** A folder is visible when it is public, or the caller (if any) owns it or
      is an administrator. */
  function CanViewFolder(f: Folder, caller: Option<Principal>): (r: bool)
    ensures caller.None? ==> (r <==> f.isPublic)
    ensures f.isPublic ==> r
    ensures caller.Some? && (IsAdmin(caller.value) || f.userId == caller.value.id) ==> r
    ensures caller.Some? && !f.isPublic ==> (r <==> CanManageFolder(f, caller.value))
  {
    f.isPublic || (caller.Some? && CanManageFolder(f, caller.value))
  }
}
