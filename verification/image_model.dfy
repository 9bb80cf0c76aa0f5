/** The `images` table and the statements of the `Image` model, together with
    the per-user sum of image sizes that the storage counter is meant to
    track. */
module ImageModel {
  import opened Wrappers
  import opened Tables
  import opened Records
  import opened Sorting

  // ---------------------------------------------------------------------------
  // Statements
  // ---------------------------------------------------------------------------

  /** `INSERT INTO images (...)`: the returned record echoes every argument,
      carries the fresh id and is the new row. */
  function Create(t: Table<Image>, filename: string, storedFilename: string, mimetype: string,
                  size: nat, folderId: nat, userId: nat, url: string,
                  thumbnailFilename: string, thumbnailUrl: string,
                  previewFilename: string, previewUrl: string, now: int): (r: (Table<Image>, Image))
    ensures r.1.id == t.nextId && r.1.createdAt == now
    ensures r.1.filename == filename && r.1.storedFilename == storedFilename && r.1.mimetype == mimetype
    ensures r.1.size == size && r.1.folderId == folderId && r.1.userId == userId && r.1.url == url
    ensures r.1.thumbnailFilename == thumbnailFilename && r.1.thumbnailUrl == thumbnailUrl
    ensures r.1.previewFilename == previewFilename && r.1.previewUrl == previewUrl
    ensures r.0.nextId == t.nextId + 1 && r.0.rows.Keys == t.rows.Keys + {t.nextId}
    ensures r.0.rows == t.rows[t.nextId := r.1]
    ensures ImagesKeyed(t) ==> ImagesKeyed(r.0) && t.nextId !in t.rows
                               && forall k :: k in t.rows ==> r.0.rows[k] == t.rows[k]
  {
    var img := Image(t.nextId, filename, storedFilename, mimetype, size, folderId, userId, url,
                     thumbnailFilename, thumbnailUrl, previewFilename, previewUrl, now);
    (Table(t.rows[t.nextId := img], t.nextId + 1), img)
  }

  /** `UPDATE images SET thumbnail_filename = $1, thumbnail_url = $2 WHERE id = $3
      RETURNING *`. */
  function UpdateThumbnail(t: Table<Image>, id: nat, thumbnailFilename: string, thumbnailUrl: string)
    : (r: Written<Image, Image>)
    ensures r.table.nextId == t.nextId && r.table.rows.Keys == t.rows.Keys
    ensures forall k :: k in t.rows && k != id ==> r.table.rows[k] == t.rows[k]
    ensures id in t.rows ==> var n := r.table.rows[id];
              n.thumbnailFilename == thumbnailFilename && n.thumbnailUrl == thumbnailUrl
              && n == t.rows[id].(thumbnailFilename := n.thumbnailFilename, thumbnailUrl := n.thumbnailUrl)
              && r.returned == Some(n)
    ensures id !in t.rows ==> r.returned.None?
    ensures ImagesKeyed(t) ==> ImagesKeyed(r.table)
  {
    if id in t.rows then
      var img := t.rows[id].(thumbnailFilename := thumbnailFilename, thumbnailUrl := thumbnailUrl);
      Written(Table(t.rows[id := img], t.nextId), Some(img))
    else Written(t, None)
  }

  /** `DELETE FROM images WHERE id = ?`: exactly that row goes. */
  function Delete(t: Table<Image>, id: nat): (r: Table<Image>)
    ensures r.nextId == t.nextId && r.rows.Keys == t.rows.Keys - {id}
    ensures forall k :: k in r.rows ==> r.rows[k] == t.rows[k]
    ensures ImagesKeyed(t) ==> ImagesKeyed(r)
  {
    Table(t.rows - {id}, t.nextId)
  }

  // ---------------------------------------------------------------------------
  // Queries
  // ---------------------------------------------------------------------------

  function FindById(t: Table<Image>, id: nat): Option<Image> {
    if id in t.rows then Some(t.rows[id]) else None
  }

  /** The ordering of `ORDER BY created_at DESC`. */
  predicate NewestFirst(a: Image, b: Image) {
    a.createdAt >= b.createdAt
  }

  lemma NewestFirstOrders()
    ensures TotalPreorder(NewestFirst)
  {
  }

  /** `findByFolderId`: with `null`, every image; otherwise exactly the images
      of that folder. Newest first in both cases. */
  function FindByFolderId(t: Table<Image>, folderId: Option<nat>): (r: seq<Image>)
    ensures Bounded(t) ==> forall x :: x in r <==>
              x in t.rows.Values && (folderId.None? || x.folderId == folderId.value)
    ensures forall i, j :: 0 <= i < j < |r| ==> r[i].createdAt >= r[j].createdAt
    ensures ImagesKeyed(t) ==> NoDuplicates(r)
  {
    assert ImagesKeyed(t) ==> DistinctRows(t.rows);
    var rows := Listing(t);
    var matching := if folderId.None? then rows else Where(rows, (x: Image) => x.folderId == folderId.value);
    NewestFirstOrders();
    var r := Sort(matching, NewestFirst);
    assert forall x :: x in r <==> x in matching by {
      forall x ensures x in r <==> x in matching {
        SortSameElements(matching, NewestFirst, x);
      }
    }
    assert SortedBy(r, NewestFirst);
    NoDuplicatesPermutation(matching, r);
    r
  }

  /** `findByIds`: nothing for a missing or empty list; otherwise exactly the
      images whose id is listed. */
  function FindByIds(t: Table<Image>, ids: Option<seq<nat>>): (r: seq<Image>)
    ensures ids.None? || |ids.value| == 0 ==> r == []
    ensures ImagesKeyed(t) && ids.Some? ==>
              forall x :: x in r <==> x in t.rows.Values && x.id in ids.value
    ensures ImagesKeyed(t) && ids.Some? ==>
              forall k :: k in t.rows ==> (t.rows[k] in r <==> k in ids.value)
    ensures ImagesKeyed(t) ==> NoDuplicates(r)
  {
    if ids.None? || |ids.value| == 0 then []
    else
      assert ImagesKeyed(t) ==> DistinctRows(t.rows);
      var r := Where(Listing(t), (x: Image) => x.id in ids.value);
      assert ImagesKeyed(t) ==> forall k :: k in t.rows ==> t.rows[k] in t.rows.Values by {
        forall k | k in t.rows ensures t.rows[k] in t.rows.Values { }
      }
      r
  }

  // ---------------------------------------------------------------------------
  // The per-user sum of image sizes
  // ---------------------------------------------------------------------------

  /** The sizes of the images with key below `n` that belong to `uid`, summed. */
  function Usage(rows: map<nat, Image>, uid: nat, n: nat): nat
    decreases n
  {
    if n == 0 then 0
    else Usage(rows, uid, n - 1) + (if n - 1 in rows && rows[n - 1].userId == uid then rows[n - 1].size else 0)
  }

  /** The sum of `size` over the user's image records. */
  function Billed(t: Table<Image>, uid: nat): nat {
    Usage(t.rows, uid, t.nextId)
  }

  /** A user who owns none of the records below `n` is billed nothing. */
  lemma {:induction false} UsageOfNonOwner(rows: map<nat, Image>, uid: nat, n: nat)
    requires forall k :: k in rows && k < n ==> rows[k].userId != uid
    ensures Usage(rows, uid, n) == 0
    decreases n
  {
    if n > 0 {
      UsageOfNonOwner(rows, uid, n - 1);
    }
  }

  lemma {:induction false} UsageIgnoresAbove(rows: map<nat, Image>, uid: nat, n: nat, k: nat, v: Image)
    requires k >= n
    ensures Usage(rows[k := v], uid, n) == Usage(rows, uid, n)
    decreases n
  {
    if n > 0 {
      UsageIgnoresAbove(rows, uid, n - 1, k, v);
    }
  }

  lemma {:induction false} UsageRemove(rows: map<nat, Image>, uid: nat, n: nat, k: nat)
    ensures Usage(rows - {k}, uid, n)
         == Usage(rows, uid, n) - (if k in rows && k < n && rows[k].userId == uid then rows[k].size else 0)
    decreases n
  {
    if n > 0 {
      UsageRemove(rows, uid, n - 1, k);
    }
  }

  lemma {:induction false} UsageReplace(rows: map<nat, Image>, uid: nat, n: nat, k: nat, v: Image)
    requires k in rows && v.userId == rows[k].userId && v.size == rows[k].size
    ensures Usage(rows[k := v], uid, n) == Usage(rows, uid, n)
    decreases n
  {
    if n > 0 {
      UsageReplace(rows, uid, n - 1, k, v);
    }
  }

  /** A new record adds its size to its uploader's sum and to no one else's. */
  lemma BilledAfterCreate(t: Table<Image>, filename: string, storedFilename: string, mimetype: string,
                          size: nat, folderId: nat, userId: nat, url: string,
                          thumbnailFilename: string, thumbnailUrl: string,
                          previewFilename: string, previewUrl: string, now: int, uid: nat)
    ensures Billed(Create(t, filename, storedFilename, mimetype, size, folderId, userId, url,
                          thumbnailFilename, thumbnailUrl, previewFilename, previewUrl, now).0, uid)
         == Billed(t, uid) + (if userId == uid then size else 0)
  {
    var r := Create(t, filename, storedFilename, mimetype, size, folderId, userId, url,
                    thumbnailFilename, thumbnailUrl, previewFilename, previewUrl, now);
    UsageIgnoresAbove(t.rows, uid, t.nextId, t.nextId, r.1);
  }

  /** Deleting a record takes its size off its uploader's sum only. */
  lemma BilledAfterDelete(t: Table<Image>, id: nat, uid: nat)
    requires Bounded(t)
    ensures Billed(Delete(t, id), uid)
         == Billed(t, uid) - (if id in t.rows && t.rows[id].userId == uid then t.rows[id].size else 0)
  {
    UsageRemove(t.rows, uid, t.nextId, id);
  }

  /** Recording a thumbnail changes nobody's sum. */
  lemma BilledAfterUpdateThumbnail(t: Table<Image>, id: nat, thumbnailFilename: string,
                                   thumbnailUrl: string, uid: nat)
    ensures Billed(UpdateThumbnail(t, id, thumbnailFilename, thumbnailUrl).table, uid) == Billed(t, uid)
  {
    if id in t.rows {
      UsageReplace(t.rows, uid, t.nextId, id,
                   t.rows[id].(thumbnailFilename := thumbnailFilename, thumbnailUrl := thumbnailUrl));
    }
  }

  /** Usage depends only on the rows below the bound. */
  lemma {:induction false} UsageAgreeBelow(rows: map<nat, Image>, rows': map<nat, Image>, uid: nat, n: nat)
    requires forall k :: k < n ==> (k in rows <==> k in rows')
    requires forall k :: k in rows && k < n ==> rows'[k] == rows[k]
    ensures Usage(rows', uid, n) == Usage(rows, uid, n)
    decreases n
  {
    if n > 0 {
      UsageAgreeBelow(rows, rows', uid, n - 1);
    }
  }

  /** The summed size of the records in `s` that belong to `uid`. */
  function OwnedSize(s: seq<Image>, uid: nat): nat {
    if |s| == 0 then 0
    else OwnedSize(s[..|s| - 1], uid) + (if s[|s| - 1].userId == uid then s[|s| - 1].size else 0)
  }

  /** Records stored one after another from key `start` add their owned size to
      the sum. */
  lemma {:induction false} UsageOfAppended(rows: map<nat, Image>, rows': map<nat, Image>, start: nat,
                                           created: seq<Image>, uid: nat, m: nat)
    requires m <= |created|
    requires forall k :: k < start ==> (k in rows <==> k in rows')
    requires forall k :: k in rows && k < start ==> rows'[k] == rows[k]
    requires forall k :: start <= k < start + |created| ==> k in rows' && rows'[k] == created[k - start]
    ensures Usage(rows', uid, start + m) == Usage(rows, uid, start) + OwnedSize(created[..m], uid)
    decreases m
  {
    if m == 0 {
      UsageAgreeBelow(rows, rows', uid, start);
    } else {
      UsageOfAppended(rows, rows', start, created, uid, m - 1);
      assert created[..m][..m - 1] == created[..m - 1];
      var k := start + (m - 1);
      assert k in rows' && rows'[k] == created[k - start];
    }
  }

  /** Appending records adds their owned sizes to each user's sum. */
  lemma BilledAfterAppend(t: Table<Image>, t': Table<Image>, added: seq<Image>, uid: nat)
    requires Appended(t, t', added)
    ensures Billed(t', uid) == Billed(t, uid) + OwnedSize(added, uid)
  {
    UsageOfAppendedAll(t.rows, t'.rows, t.nextId, added, uid);
  }

  lemma UsageOfAppendedAll(rows: map<nat, Image>, rows': map<nat, Image>, start: nat,
                           created: seq<Image>, uid: nat)
    requires forall k :: k < start ==> (k in rows <==> k in rows')
    requires forall k :: k in rows && k < start ==> rows'[k] == rows[k]
    requires forall k :: start <= k < start + |created| ==> k in rows' && rows'[k] == created[k - start]
    ensures Usage(rows', uid, start + |created|) == Usage(rows, uid, start) + OwnedSize(created, uid)
  {
    UsageOfAppended(rows, rows', start, created, uid, |created|);
    assert created[..|created|] == created;
  }
}
