/** The rows of the `users`, `folders` and `images` tables, the decoded token
    payload that identifies a caller, and the database as a whole.

    Nullable text columns are `string`s in which "" stands for NULL: every
    place the backend reads them tests JavaScript truthiness, which is false
    for both. */
module Records {
  import opened Tables

  const AdminRole: string := "admin"
  const UserRole: string := "user"

  datatype User = User(
    id: nat,
    username: string,
    email: string,
    passwordHash: string,
    role: string,
    storageLimit: int,
    storageUsed: int,
    profilePictureUrl: string,
    createdAt: int,
    updatedAt: int)

  datatype Folder = Folder(id: nat, name: string, userId: nat, isPublic: bool)

  datatype Image = Image(
    id: nat,
    filename: string,          // the name the file was uploaded under
    storedFilename: string,    // the name of the original rendition on disk
    mimetype: string,
    size: nat,
    folderId: nat,
    userId: nat,
    url: string,
    thumbnailFilename: string,
    thumbnailUrl: string,
    previewFilename: string,
    previewUrl: string,
    createdAt: int)

  /** The JWT payload `{ id, role }` attached to a request as `req.user`. */
  datatype Principal = Principal(id: nat, role: string)

  predicate IsAdmin(p: Principal) {
    p.role == AdminRole
  }

  datatype Db = Db(users: Table<User>, folders: Table<Folder>, images: Table<Image>)

  /** Keys come from the sequence and every row carries its own key. */
  predicate UsersKeyed(t: Table<User>) {
    Bounded(t) && forall k :: k in t.rows ==> t.rows[k].id == k
  }

  predicate FoldersKeyed(t: Table<Folder>) {
    Bounded(t) && forall k :: k in t.rows ==> t.rows[k].id == k
  }

  predicate ImagesKeyed(t: Table<Image>) {
    Bounded(t) && forall k :: k in t.rows ==> t.rows[k].id == k
  }

  predicate WellFormed(db: Db) {
    UsersKeyed(db.users) && FoldersKeyed(db.folders) && ImagesKeyed(db.images)
  }
}
