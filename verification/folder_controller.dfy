/** The folder endpoints: who may create, list, rename, delete and read a
    folder, and what each answers. */
module FolderController {
  import opened Wrappers
  import opened Tables
  import opened Records
  import opened Access
  import FolderModel

  /** The body `updateFolder` sends back: the id, name and visibility it wrote. */
  datatype FolderUpdate = FolderUpdate(id: nat, name: string, isPublic: bool)

  /** A status, the folders table after the request, and a body if one was
      sent besides an error message. */
  datatype FolderReply<B> = FolderReply(status: nat, folders: Table<Folder>, body: Option<B>)

  /** `createFolder`: the new folder always belongs to the caller. */
  function CreateFolder(t: Table<Folder>, caller: Principal, name: string, isPublic: Option<bool>)
    : (r: FolderReply<Folder>)
    ensures r.status == CreatedStatus && r.body.Some?
    ensures var f := r.body.value;
            f.userId == caller.id && f.name == name && f.isPublic == (isPublic == Some(true))
            && r.folders.rows == t.rows[f.id := f] && (Bounded(t) ==> f.id !in t.rows)
  {
    var (t', f) := FolderModel.Create(t, name, caller.id, isPublic);
    assert t'.rows == t.rows[f.id := f];
    FolderReply(CreatedStatus, t', Some(f))
  }

  /** `getFolders`: the caller's own folders, and no one else's. */
  function GetFolders(t: Table<Folder>, caller: Principal): (r: seq<Folder>)
    ensures Bounded(t) ==> forall f :: f in r <==> f in t.rows.Values && f.userId == caller.id
    ensures FoldersKeyed(t) ==> NoDuplicates(r)
  {
    FolderModel.FindByUserId(t, caller.id)
  }

  /** `getPublicFolders`: every public folder and nothing private. */
  function GetPublicFolders(t: Table<Folder>): (r: seq<Folder>)
    ensures Bounded(t) ==> forall f :: f in r <==> f in t.rows.Values && f.isPublic
    ensures FoldersKeyed(t) ==> NoDuplicates(r)
  {
    FolderModel.FindAllPublic(t)
  }

  /** `updateFolder`: 404 for an unknown folder, 403 unless the caller owns it
      or is an administrator; otherwise the name and visibility are set. */
  function UpdateFolder(t: Table<Folder>, caller: Principal, id: nat, name: string, isPublic: bool)
    : (r: FolderReply<FolderUpdate>)
    ensures r.status == NotFound <==> id !in t.rows
    ensures r.status == Forbidden <==> id in t.rows && !CanManageFolder(t.rows[id], caller)
    ensures r.status == Ok <==> id in t.rows && CanManageFolder(t.rows[id], caller)
    ensures r.status != Ok ==> r.folders == t && r.body.None?
    ensures r.status == Ok ==>
              && r.body == Some(FolderUpdate(id, name, isPublic))
              && r.folders.rows == t.rows[id := t.rows[id].(name := name, isPublic := isPublic)]
  {
    match FolderModel.FindById(t, id)
    case None => FolderReply(NotFound, t, None)
    case Some(f) =>
      if !CanManageFolder(f, caller) then FolderReply(Forbidden, t, None)
      else
        var t' := FolderModel.Update(t, id, name, isPublic);
        assert t'.rows == t.rows[id := f.(name := name, isPublic := isPublic)];
        FolderReply(Ok, t', Some(FolderUpdate(id, name, isPublic)))
  }

  /** `deleteFolder`: the same two refusals, otherwise the row is removed. */
  function DeleteFolder(t: Table<Folder>, caller: Principal, id: nat): (r: FolderReply<()>)
    ensures r.status == NotFound <==> id !in t.rows
    ensures r.status == Forbidden <==> id in t.rows && !CanManageFolder(t.rows[id], caller)
    ensures r.status == Ok <==> id in t.rows && CanManageFolder(t.rows[id], caller)
    ensures r.status != Ok ==> r.folders == t
    ensures r.status == Ok ==> r.folders.rows == t.rows - {id} && r.folders.nextId == t.nextId
    ensures r.body.None?
  {
    match FolderModel.FindById(t, id)
    case None => FolderReply(NotFound, t, None)
    case Some(f) =>
      if !CanManageFolder(f, caller) then FolderReply(Forbidden, t, None)
      else FolderReply(Ok, FolderModel.Delete(t, id), None)
  }

  /** `getFolderById`: 404 for an unknown folder, 403 when it is private and the
      caller is anonymous, not its owner and not an administrator. */
  function GetFolderById(t: Table<Folder>, caller: Option<Principal>, id: nat): (r: FolderReply<Folder>)
    ensures r.folders == t
    ensures r.status == NotFound <==> id !in t.rows
    ensures r.status == Ok <==> id in t.rows && CanViewFolder(t.rows[id], caller)
    ensures r.status == Forbidden <==> id in t.rows && !CanViewFolder(t.rows[id], caller)
    ensures r.status == Ok ==> r.body == Some(t.rows[id])
    ensures r.status != Ok ==> r.body.None?
  {
    match FolderModel.FindById(t, id)
    case None => FolderReply(NotFound, t, None)
    case Some(f) =>
      if !CanViewFolder(f, caller) then FolderReply(Forbidden, t, None)
      else FolderReply(Ok, t, Some(f))
  }

  /** An anonymous caller can read a folder exactly when it is public; a signed
      in caller also reads the folders they own, and an administrator reads
      them all. */
  lemma ReadableFolders(t: Table<Folder>, caller: Option<Principal>, id: nat)
    requires id in t.rows
    ensures caller.None? ==>
              (GetFolderById(t, caller, id).status == Ok <==> t.rows[id].isPublic)
    ensures caller.Some? && (caller.value.role == AdminRole || t.rows[id].userId == caller.value.id) ==>
              GetFolderById(t, caller, id).status == Ok
    ensures caller.Some? && caller.value.role != AdminRole && t.rows[id].userId != caller.value.id ==>
              (GetFolderById(t, caller, id).status == Ok <==> t.rows[id].isPublic)
  {
  }

  /** Whatever an update or delete is allowed to do, the same caller was
      allowed to read the folder first. */
  lemma ManagersCanRead(t: Table<Folder>, caller: Principal, id: nat, name: string, isPublic: bool)
    ensures UpdateFolder(t, caller, id, name, isPublic).status == Ok ==>
              GetFolderById(t, Some(caller), id).status == Ok
    ensures DeleteFolder(t, caller, id).status == Ok ==>
              GetFolderById(t, Some(caller), id).status == Ok
  {
  }

  /** After a successful update the owner reads back what was written; after a
      successful delete the folder is gone. */
  lemma UpdateThenRead(t: Table<Folder>, caller: Principal, id: nat, name: string, isPublic: bool)
    ensures var u := UpdateFolder(t, caller, id, name, isPublic);
            u.status == Ok ==>
              var g := GetFolderById(u.folders, Some(caller), id);
              g.status == Ok && g.body.value.name == name && g.body.value.isPublic == isPublic
              && g.body.value.userId == t.rows[id].userId
  {
  }

  lemma DeleteThenRead(t: Table<Folder>, caller: Principal, id: nat, other: Option<Principal>)
    ensures DeleteFolder(t, caller, id).status == Ok ==>
              GetFolderById(DeleteFolder(t, caller, id).folders, other, id).status == NotFound
  {
  }
}
