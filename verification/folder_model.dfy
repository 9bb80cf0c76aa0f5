/** The `folders` table and the statements the controllers issue against it. */
module FolderModel {
  import opened Wrappers
  import opened Tables
  import opened Records

  /** `INSERT INTO folders (name, user_id, is_public)`; visibility defaults to
      private when the request leaves it out. */
  function Create(t: Table<Folder>, name: string, userId: nat, isPublic: Option<bool>): (r: (Table<Folder>, Folder))
    ensures r.1 == Folder(t.nextId, name, userId, isPublic == Some(true))
    ensures r.0.nextId == t.nextId + 1 && r.0.rows.Keys == t.rows.Keys + {t.nextId}
    ensures r.0.rows[t.nextId] == r.1
    ensures FoldersKeyed(t) ==> FoldersKeyed(r.0) && forall k :: k in t.rows ==> r.0.rows[k] == t.rows[k]
  {
    var f := Folder(t.nextId, name, userId, isPublic.GetOr(false));
    (Table(t.rows[t.nextId := f], t.nextId + 1), f)
  }

  function FindById(t: Table<Folder>, id: nat): Option<Folder> {
    if id in t.rows then Some(t.rows[id]) else None
  }

  /** `SELECT * FROM folders WHERE user_id = $1`: each of the user's folders
      once. */
  function FindByUserId(t: Table<Folder>, userId: nat): (r: seq<Folder>)
    ensures Bounded(t) ==> forall f :: f in r <==> f in t.rows.Values && f.userId == userId
    ensures FoldersKeyed(t) ==> NoDuplicates(r)
  {
    assert FoldersKeyed(t) ==> DistinctRows(t.rows);
    Where(Listing(t), (f: Folder) => f.userId == userId)
  }

  /** `SELECT * FROM folders WHERE is_public = TRUE`: each public folder once. */
  function FindAllPublic(t: Table<Folder>): (r: seq<Folder>)
    ensures Bounded(t) ==> forall f :: f in r <==> f in t.rows.Values && f.isPublic
    ensures FoldersKeyed(t) ==> NoDuplicates(r)
  {
    assert FoldersKeyed(t) ==> DistinctRows(t.rows);
    Where(Listing(t), (f: Folder) => f.isPublic)
  }

  /** `UPDATE folders SET name = $1, is_public = $2 WHERE id = $3`: only those
      two columns of that row. */
  function Update(t: Table<Folder>, id: nat, name: string, isPublic: bool): (r: Table<Folder>)
    ensures r.nextId == t.nextId && r.rows.Keys == t.rows.Keys
    ensures forall k :: k in t.rows && k != id ==> r.rows[k] == t.rows[k]
    ensures id in t.rows ==> r.rows[id] == t.rows[id].(name := name, isPublic := isPublic)
    ensures FoldersKeyed(t) ==> FoldersKeyed(r)
  {
    if id in t.rows then Table(t.rows[id := t.rows[id].(name := name, isPublic := isPublic)], t.nextId)
    else t
  }

  /** `DELETE FROM folders WHERE id = $1`. */
  function Delete(t: Table<Folder>, id: nat): (r: Table<Folder>)
    ensures r.nextId == t.nextId && r.rows.Keys == t.rows.Keys - {id}
    ensures forall k :: k in r.rows ==> r.rows[k] == t.rows[k]
    ensures FoldersKeyed(t) ==> FoldersKeyed(r)
  {
    Table(t.rows - {id}, t.nextId)
  }
}
