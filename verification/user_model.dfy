/** The `users` table and the statements of the `User` model. Each update
    touches the row with the given id only, and in it only the columns its SQL
    names. */
module UserModel {
  import opened Wrappers
  import opened Tables
  import opened Records

  /** 5 GiB, the quota every account starts with. */
  const DefaultStorageLimit: int := 5368709120

  /** A `users` row without `password_hash`: the columns `findAll` selects. */
  datatype UserListing = UserListing(
    id: nat, username: string, email: string, role: string, createdAt: int,
    updatedAt: int, storageLimit: int, storageUsed: int)

  /** The columns `updateProfile` returns. */
  datatype ProfileRow = ProfileRow(
    id: nat, username: string, email: string, role: string, createdAt: int, updatedAt: int)

  function ListingOf(u: User): UserListing {
    UserListing(u.id, u.username, u.email, u.role, u.createdAt, u.updatedAt, u.storageLimit, u.storageUsed)
  }

  // ---------------------------------------------------------------------------
  // Queries
  // ---------------------------------------------------------------------------

  function FindById(t: Table<User>, id: nat): Option<User> {
    if id in t.rows then Some(t.rows[id]) else None
  }

  /** `SELECT * FROM users WHERE username = $1`, first row. */
  function FindByUsername(t: Table<User>, username: string): (r: Option<User>)
    ensures r.Some? ==> r.value in t.rows.Values && r.value.username == username
    ensures Bounded(t) ==> (r.None? <==> forall k :: k in t.rows ==> t.rows[k].username != username)
  {
    var r := First(Listing(t), (u: User) => u.username == username);
    assert Bounded(t) && r.None? ==> forall k :: k in t.rows ==> t.rows[k].username != username by {
      if Bounded(t) && r.None? {
        forall k | k in t.rows ensures t.rows[k].username != username {
          assert t.rows[k] in t.rows.Values;
        }
      }
    }
    r
  }

  /** `SELECT * FROM users WHERE email = $1`, first row. */
  function FindByEmail(t: Table<User>, email: string): (r: Option<User>)
    ensures r.Some? ==> r.value in t.rows.Values && r.value.email == email
    ensures Bounded(t) ==> (r.None? <==> forall k :: k in t.rows ==> t.rows[k].email != email)
  {
    var r := First(Listing(t), (u: User) => u.email == email);
    assert Bounded(t) && r.None? ==> forall k :: k in t.rows ==> t.rows[k].email != email by {
      if Bounded(t) && r.None? {
        forall k | k in t.rows ensures t.rows[k].email != email {
          assert t.rows[k] in t.rows.Values;
        }
      }
    }
    r
  }

  /** `SELECT COUNT(*) FROM users`. */
  function Count(t: Table<User>): nat {
    |t.rows|
  }

  /** The listing columns of each row, in order. */
  function ListingsOf(s: seq<User>): (r: seq<UserListing>)
    ensures |r| == |s|
    ensures forall i :: 0 <= i < |s| ==> r[i] == ListingOf(s[i])
  {
    if |s| == 0 then [] else ListingsOf(s[..|s| - 1]) + [ListingOf(s[|s| - 1])]
  }

  /** `findAll`: every user, listed without the password hash. */
  function FindAll(t: Table<User>): (r: seq<UserListing>)
    ensures UsersKeyed(t) ==> forall k :: k in t.rows ==> ListingOf(t.rows[k]) in r
    ensures forall v :: v in r ==> exists u :: u in t.rows.Values && v == ListingOf(u)
    ensures UsersKeyed(t) ==> NoDuplicates(r)
  {
    var rows := Listing(t);
    var r := ListingsOf(rows);
    assert UsersKeyed(t) ==> NoDuplicates(r) by {
      if UsersKeyed(t) {
        assert DistinctRows(t.rows);
        forall i, j | 0 <= i < j < |r| ensures r[i] != r[j] {
          // Listed rows carry their keys, so equal ids mean the same row.
          assert rows[i] in rows && rows[j] in rows;
          assert rows[i].id == r[i].id && rows[j].id == r[j].id;
          assert rows[i] != rows[j];
        }
      }
    }
    assert forall v :: v in r ==> exists u :: u in t.rows.Values && v == ListingOf(u) by {
      forall v | v in r ensures exists u :: u in t.rows.Values && v == ListingOf(u) {
        var i :| 0 <= i < |r| && r[i] == v;
        assert rows[i] in rows;
      }
    }
    assert UsersKeyed(t) ==> forall k :: k in t.rows ==> ListingOf(t.rows[k]) in r by {
      if UsersKeyed(t) {
        forall k | k in t.rows ensures ListingOf(t.rows[k]) in r {
          assert t.rows[k] in t.rows.Values;
          assert t.rows[k] in rows;
          var i :| 0 <= i < |rows| && rows[i] == t.rows[k];
          assert r[i] == ListingOf(t.rows[k]);
        }
      }
    }
    r
  }

  /** Two tables that differ at most in their password hashes. */
  ghost predicate SameButHashes(t: Table<User>, t': Table<User>) {
    && t.nextId == t'.nextId
    && t.rows.Keys == t'.rows.Keys
    && forall k :: k in t.rows ==> t'.rows[k] == t.rows[k].(passwordHash := t'.rows[k].passwordHash)
  }

  lemma {:induction false} BelowListingIgnoresHashes(t: Table<User>, t': Table<User>, n: nat)
    requires SameButHashes(t, t')
    ensures ListingsOf(Below(t.rows, n)) == ListingsOf(Below(t'.rows, n))
    decreases n
  {
    if n > 0 {
      BelowListingIgnoresHashes(t, t', n - 1);
      var a, b := Below(t.rows, n - 1), Below(t'.rows, n - 1);
      if n - 1 in t.rows {
        var x, y := t.rows[n - 1], t'.rows[n - 1];
        assert ListingsOf(a + [x]) == ListingsOf(a) + [ListingOf(x)] by { assert (a + [x])[..|a|] == a; }
        assert ListingsOf(b + [y]) == ListingsOf(b) + [ListingOf(y)] by { assert (b + [y])[..|b|] == b; }
      }
    }
  }

  /** The user listing reveals nothing about password hashes: changing any
      hash leaves it unchanged. */
  lemma FindAllIgnoresHashes(t: Table<User>, t': Table<User>)
    requires SameButHashes(t, t')
    ensures FindAll(t) == FindAll(t')
  {
    BelowListingIgnoresHashes(t, t', t.nextId);
  }

  // ---------------------------------------------------------------------------
  // Statements
  // ---------------------------------------------------------------------------

  /** `INSERT INTO users ... VALUES (..., 5368709120, 0) RETURNING *`; the role
      defaults to "user" when none is given. */
  function Create(t: Table<User>, username: string, email: string, passwordHash: string,
                  role: Option<string>, now: int): (r: (Table<User>, User))
    ensures r.1.id == t.nextId && r.0.nextId == t.nextId + 1
    ensures r.1.username == username && r.1.email == email && r.1.passwordHash == passwordHash
    ensures r.1.role == (if role.Some? then role.value else UserRole)
    ensures r.1.storageLimit == DefaultStorageLimit && r.1.storageUsed == 0
    ensures r.1.profilePictureUrl == ""
    ensures r.0.rows.Keys == t.rows.Keys + {t.nextId} && r.0.rows[t.nextId] == r.1
    ensures Bounded(t) ==> Count(r.0) == Count(t) + 1
    ensures UsersKeyed(t) ==> UsersKeyed(r.0) && forall k :: k in t.rows ==> r.0.rows[k] == t.rows[k]
  {
    var u := User(t.nextId, username, email, passwordHash, role.GetOr(UserRole),
                  DefaultStorageLimit, 0, "", now, now);
    (Table(t.rows[t.nextId := u], t.nextId + 1), u)
  }

  /** Replaces the row `id`, if present, by `f` of it; RETURNING the new row. */
  function Patch(t: Table<User>, id: nat, f: User -> User): (r: Written<User, User>)
    ensures r.table.nextId == t.nextId && r.table.rows.Keys == t.rows.Keys
    ensures forall k :: k in t.rows && k != id ==> r.table.rows[k] == t.rows[k]
    ensures id in t.rows ==> r.table.rows[id] == f(t.rows[id]) && r.returned == Some(f(t.rows[id]))
    ensures id !in t.rows ==> r == Written(t, None)
  {
    if id in t.rows then
      var u := f(t.rows[id]);
      Written(Table(t.rows[id := u], t.nextId), Some(u))
    else Written(t, None)
  }

  /** `UPDATE users SET role = $1, updated_at = ...`. */
  function UpdateRole(t: Table<User>, id: nat, role: string, now: int): (r: Written<User, User>)
    ensures r.table.rows.Keys == t.rows.Keys && r.table.nextId == t.nextId
    ensures forall k :: k in t.rows && k != id ==> r.table.rows[k] == t.rows[k]
    ensures id in t.rows ==> var n := r.table.rows[id];
              n.role == role && n == t.rows[id].(role := n.role, updatedAt := now) && r.returned == Some(n)
    ensures id !in t.rows ==> r.returned.None?
    ensures UsersKeyed(t) ==> UsersKeyed(r.table)
  {
    Patch(t, id, (u: User) => u.(role := role, updatedAt := now))
  }

  /** `DELETE FROM users WHERE id = $1 RETURNING *`: the removed row, or
      nothing when no row has that id. */
  function Delete(t: Table<User>, id: nat): (r: Written<User, User>)
    ensures r.table.rows.Keys == t.rows.Keys - {id} && r.table.nextId == t.nextId
    ensures forall k :: k in r.table.rows ==> r.table.rows[k] == t.rows[k]
    ensures r.returned == (if id in t.rows then Some(t.rows[id]) else None)
    ensures UsersKeyed(t) ==> UsersKeyed(r.table)
    ensures Count(r.table) == Count(t) - (if id in t.rows then 1 else 0)
  {
    Written(Table(t.rows - {id}, t.nextId), FindById(t, id))
  }

  /** `UPDATE users SET storage_used = storage_used + $1`: a signed delta
      applied in one statement, without any clamp. */
  function UpdateStorageUsed(t: Table<User>, id: nat, delta: int): (r: Written<User, User>)
    ensures r.table.rows.Keys == t.rows.Keys && r.table.nextId == t.nextId
    ensures forall k :: k in t.rows && k != id ==> r.table.rows[k] == t.rows[k]
    ensures id in t.rows ==> var n := r.table.rows[id];
              n.storageUsed == t.rows[id].storageUsed + delta
              && n == t.rows[id].(storageUsed := n.storageUsed) && r.returned == Some(n)
    ensures id !in t.rows ==> r.returned.None?
    ensures UsersKeyed(t) ==> UsersKeyed(r.table)
  {
    Patch(t, id, (u: User) => u.(storageUsed := u.storageUsed + delta))
  }

  /** Two increments are one increment by their sum. */
  lemma UpdateStorageUsedComposes(t: Table<User>, id: nat, d1: int, d2: int)
    ensures UpdateStorageUsed(UpdateStorageUsed(t, id, d1).table, id, d2).table
         == UpdateStorageUsed(t, id, d1 + d2).table
  {
  }

  /** Reclaiming what was billed restores the table. */
  lemma UpdateStorageUsedInverse(t: Table<User>, id: nat, delta: int)
    ensures UpdateStorageUsed(UpdateStorageUsed(t, id, delta).table, id, -delta).table == t
  {
    if id in t.rows {
      var t1 := UpdateStorageUsed(t, id, delta).table;
      var t2 := UpdateStorageUsed(t1, id, -delta).table;
      assert t2.rows[id] == t.rows[id];
      assert t2.rows == t.rows;
    }
  }

  /** `UPDATE users SET storage_limit = $1`: the usage counter is untouched. */
  function UpdateStorageLimit(t: Table<User>, id: nat, newLimit: int): (r: Written<User, User>)
    ensures r.table.rows.Keys == t.rows.Keys && r.table.nextId == t.nextId
    ensures forall k :: k in t.rows && k != id ==> r.table.rows[k] == t.rows[k]
    ensures id in t.rows ==> var n := r.table.rows[id];
              n.storageLimit == newLimit && n.storageUsed == t.rows[id].storageUsed
              && n == t.rows[id].(storageLimit := n.storageLimit) && r.returned == Some(n)
    ensures id !in t.rows ==> r.returned.None?
    ensures UsersKeyed(t) ==> UsersKeyed(r.table)
  {
    Patch(t, id, (u: User) => u.(storageLimit := newLimit))
  }

  /** `UPDATE users SET username = $1, email = $2, updated_at = ... RETURNING
      id, username, email, role, created_at, updated_at`. */
  function UpdateProfile(t: Table<User>, id: nat, username: string, email: string, now: int)
    : (r: (Table<User>, Option<ProfileRow>))
    ensures r.0.rows.Keys == t.rows.Keys && r.0.nextId == t.nextId
    ensures forall k :: k in t.rows && k != id ==> r.0.rows[k] == t.rows[k]
    ensures id in t.rows ==> var n := r.0.rows[id];
              n.username == username && n.email == email
              && n == t.rows[id].(username := n.username, email := n.email, updatedAt := now)
              && r.1 == Some(ProfileRow(n.id, username, email, n.role, n.createdAt, now))
    ensures id !in t.rows ==> r.1.None?
    ensures UsersKeyed(t) ==> UsersKeyed(r.0)
  {
    var w := Patch(t, id, (u: User) => u.(username := username, email := email, updatedAt := now));
    match w.returned
    case Some(u) => (w.table, Some(ProfileRow(u.id, u.username, u.email, u.role, u.createdAt, u.updatedAt)))
    case None => (w.table, None)
  }

  /** `UPDATE users SET password_hash = $1, updated_at = ... RETURNING id`. */
  function UpdatePassword(t: Table<User>, id: nat, passwordHash: string, now: int)
    : (r: (Table<User>, Option<nat>))
    ensures r.0.rows.Keys == t.rows.Keys && r.0.nextId == t.nextId
    ensures forall k :: k in t.rows && k != id ==> r.0.rows[k] == t.rows[k]
    ensures id in t.rows ==> var n := r.0.rows[id];
              n.passwordHash == passwordHash
              && n == t.rows[id].(passwordHash := n.passwordHash, updatedAt := now)
              && r.1 == Some(id)
    ensures id !in t.rows ==> r.1.None?
    ensures UsersKeyed(t) ==> UsersKeyed(r.0)
  {
    var w := Patch(t, id, (u: User) => u.(passwordHash := passwordHash, updatedAt := now));
    (w.table, if w.returned.Some? then Some(id) else None)
  }

  /** `UPDATE users SET profile_picture_url = $1, updated_at = ... RETURNING
      id, profile_picture_url`. */
  function UpdateProfilePicture(t: Table<User>, id: nat, url: string, now: int)
    : (r: (Table<User>, Option<(nat, string)>))
    ensures r.0.rows.Keys == t.rows.Keys && r.0.nextId == t.nextId
    ensures forall k :: k in t.rows && k != id ==> r.0.rows[k] == t.rows[k]
    ensures id in t.rows ==> var n := r.0.rows[id];
              n.profilePictureUrl == url
              && n == t.rows[id].(profilePictureUrl := n.profilePictureUrl, updatedAt := now)
              && r.1 == Some((id, url))
    ensures id !in t.rows ==> r.1.None?
    ensures UsersKeyed(t) ==> UsersKeyed(r.0)
  {
    var w := Patch(t, id, (u: User) => u.(profilePictureUrl := url, updatedAt := now));
    (w.table, if w.returned.Some? then Some((id, url)) else None)
  }
}
