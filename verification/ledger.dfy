/** The storage ledger: each user's `storage_used` counter against the sizes
    of the image records that user owns. */
module Ledger {
  import opened Wrappers
  import opened Tables
  import opened Records
  import ImageModel
  import UserModel

  /** For every user, the counter equals a per-user starting value plus the
      summed `size` of that user's image records. With every starting value 0
      this is "the counter is the sum of the user's image sizes". */
  ghost predicate Consistent(db: Db, base: map<nat, int>) {
    forall uid :: uid in db.users.rows ==>
      uid in base && db.users.rows[uid].storageUsed == base[uid] + ImageModel.Billed(db.images, uid)
  }

  /** The images table changed so that one user's sum moved by `delta` and no
      one else's moved. */
  ghost predicate BilledMoved(before: Table<Image>, after: Table<Image>, uid: nat, delta: int) {
    forall u :: ImageModel.Billed(after, u) == ImageModel.Billed(before, u) + (if u == uid then delta else 0)
  }

  /** Moving a user's counter by exactly what their records moved by keeps
      the ledger. */
  lemma ChargeKeepsConsistent(db: Db, images: Table<Image>, uid: nat, delta: int, base: map<nat, int>)
    requires Consistent(db, base)
    requires BilledMoved(db.images, images, uid, delta)
    ensures Consistent(Db(UserModel.UpdateStorageUsed(db.users, uid, delta).table, db.folders, images), base)
  {
    var users := UserModel.UpdateStorageUsed(db.users, uid, delta).table;
    forall u | u in users.rows
      ensures u in base && users.rows[u].storageUsed == base[u] + ImageModel.Billed(images, u)
    {
      assert ImageModel.Billed(images, u) == ImageModel.Billed(db.images, u) + (if u == uid then delta else 0);
    }
  }

  /** Records that bill nobody, with the counters left alone, keep the ledger. */
  lemma NoChargeKeepsConsistent(db: Db, images: Table<Image>, base: map<nat, int>)
    requires Consistent(db, base)
    requires forall u :: ImageModel.Billed(images, u) == ImageModel.Billed(db.images, u)
    ensures Consistent(db.(images := images), base)
  {
  }

  /** Records that bill a user whose counter is left alone break the ledger:
      the counter no longer matches. */
  lemma UnchargedRecordsBreakConsistent(db: Db, images: Table<Image>, uid: nat, delta: int, base: map<nat, int>)
    requires Consistent(db, base)
    requires uid in db.users.rows && delta > 0
    requires BilledMoved(db.images, images, uid, delta)
    ensures !Consistent(db.(images := images), base)
  {
    assert ImageModel.Billed(images, uid) == ImageModel.Billed(db.images, uid) + delta;
  }

  /** A registration keeps the ledger: the new row starts with the default
      quota and nothing used, and, since every image record belongs to an
      existing user (the `user_id` foreign key), nothing is billed to the new
      id either. */
  lemma RegistrationKeepsConsistent(db: Db, base: map<nat, int>, username: string, email: string,
                                    passwordHash: string, role: Option<string>, now: int)
    requires Consistent(db, base)
    requires Bounded(db.users)
    requires forall k :: k in db.images.rows ==> db.images.rows[k].userId in db.users.rows
    ensures var created := UserModel.Create(db.users, username, email, passwordHash, role, now);
            var users := created.0;
            var u := created.1;
            && u.storageUsed == 0 && u.storageLimit == UserModel.DefaultStorageLimit
            && Consistent(db.(users := users), base[u.id := 0])
  {
    var (users, u) := UserModel.Create(db.users, username, email, passwordHash, role, now);
    ImageModel.UsageOfNonOwner(db.images.rows, u.id, db.images.nextId);
  }

  /** Changing a quota leaves every counter, and so the ledger, alone; in
      particular a limit below the current usage does not touch the usage. */
  lemma StorageLimitKeepsConsistent(db: Db, uid: nat, newLimit: int, base: map<nat, int>)
    requires Consistent(db, base)
    ensures Consistent(db.(users := UserModel.UpdateStorageLimit(db.users, uid, newLimit).table), base)
  {
    var users := UserModel.UpdateStorageLimit(db.users, uid, newLimit).table;
    forall u | u in users.rows
      ensures u in base && users.rows[u].storageUsed == base[u] + ImageModel.Billed(db.images, u)
    {
      assert u in db.users.rows;
    }
  }
}
