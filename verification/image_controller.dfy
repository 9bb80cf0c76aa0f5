/** The image endpoints: batch upload with its quota check and single storage
    increment, deletion with best-effort file removal, the folder listing, and
    bulk download with its two access regimes. Each handler is a function from
    the database and the upload directory to a status, a body and the new
    state. */
module ImageController {
  import opened Wrappers
  import opened Tables
  import opened Records
  import opened Access
  import opened Disk
  import opened ImageProcessing
  import ImageModel
  import UserModel
  import FolderModel
  import Ledger

  // ---------------------------------------------------------------------------
  // Uploaded files
  // ---------------------------------------------------------------------------

  /** The sum of the upload sizes, as the loop that computes `totalUploadSize`
      adds them. */
  function SumSizes(files: seq<UploadedFile>): nat {
    if |files| == 0 then 0 else SumSizes(files[..|files| - 1]) + files[|files| - 1].size
  }

  lemma {:induction false} SumSizesAppend(files: seq<UploadedFile>, more: seq<UploadedFile>)
    ensures SumSizes(files + more) == SumSizes(files) + SumSizes(more)
    decreases |more|
  {
    if |more| == 0 {
      assert files + more == files;
    } else {
      var init := more[..|more| - 1];
      assert (files + more)[..|files + more| - 1] == files + init;
      assert (files + more)[|files + more| - 1] == more[|more| - 1];
      SumSizesAppend(files, init);
    }
  }

  /** The temporary files of a batch. */
  function TempPaths(files: seq<UploadedFile>): set<FilePath> {
    set f | f in files :: Temp(f.tempPath)
  }

  /** The catch block's clean-up: each temporary file that still exists is
      removed; a missing one is not an error. */
  function RemoveTemps(d: Disk, files: seq<UploadedFile>): (r: Disk)
    ensures r.files == d.files - TempPaths(files)
    ensures r.dirs == d.dirs
    decreases |files|
  {
    if |files| == 0 then d
    else
      var init := files[..|files| - 1];
      var r := Unlink(RemoveTemps(d, init), Temp(files[|files| - 1].tempPath));
      assert TempPaths(files) == TempPaths(init) + {Temp(files[|files| - 1].tempPath)} by {
        assert files == init + [files[|files| - 1]];
      }
      r
  }

  // ---------------------------------------------------------------------------
  // The over-quota branch
  // ---------------------------------------------------------------------------

  /** Which `fs` API a module bound: the synchronous module or
      `require('fs').promises`, which has no `unlinkSync`. */
  datatype FsBinding = FsSync | FsPromises

  /** The binding the image controller makes on its first line. */
  const ControllerFs: FsBinding := FsPromises

  /** Does `fs.unlinkSync` of each temporary file, one after another, succeed?
      The synchronous call throws ENOENT on a file that is not there, including
      a second unlink of the same path. */
  predicate UnlinkEachSucceeds(d: Disk, files: seq<UploadedFile>)
    decreases |files|
  {
    |files| == 0
    || (Temp(files[0].tempPath) in d.files && UnlinkEachSucceeds(Unlink(d, Temp(files[0].tempPath)), files[1..]))
  }

  /** Every temporary file exists and no two files share one. */
  predicate TempsPresentAndDistinct(d: Disk, files: seq<UploadedFile>) {
    && (forall i :: 0 <= i < |files| ==> Temp(files[i].tempPath) in d.files)
    && (forall i, j :: 0 <= i < j < |files| ==> files[i].tempPath != files[j].tempPath)
  }

  /** Unlinking one by one succeeds exactly when the files are all there and
      distinct. */
  lemma {:induction false} UnlinkEachSucceedsIff(d: Disk, files: seq<UploadedFile>)
    ensures UnlinkEachSucceeds(d, files) <==> TempsPresentAndDistinct(d, files)
    decreases |files|
  {
    if |files| > 0 {
      var p := Temp(files[0].tempPath);
      var d' := Unlink(d, p);
      var rest := files[1..];
      UnlinkEachSucceedsIff(d', rest);
      if TempsPresentAndDistinct(d, files) {
        forall i | 0 <= i < |rest| ensures Temp(rest[i].tempPath) in d'.files {
          assert rest[i] == files[i + 1];
        }
        forall i, j | 0 <= i < j < |rest| ensures rest[i].tempPath != rest[j].tempPath {
          assert rest[i] == files[i + 1] && rest[j] == files[j + 1];
        }
      }
      if p in d.files && TempsPresentAndDistinct(d', rest) {
        forall i | 0 <= i < |files| ensures Temp(files[i].tempPath) in d.files {
          if i > 0 { assert files[i] == rest[i - 1]; }
        }
        forall i, j | 0 <= i < j < |files| ensures files[i].tempPath != files[j].tempPath {
          if i == 0 {
            assert files[j] == rest[j - 1];
            assert Temp(files[j].tempPath) in d'.files;
          } else {
            assert files[i] == rest[i - 1] && files[j] == rest[j - 1];
          }
        }
      }
    }
  }

  /** The branch taken when the batch would exceed the quota: unlink every
      temporary file with `fs.unlinkSync`, then answer 413. A throw anywhere
      lands in the catch block, which removes what is left and answers 500.
      Either way no temporary file of the batch remains. */
  function RejectOverQuota(fs: FsBinding, d: Disk, files: seq<UploadedFile>): (r: (nat, Disk))
    ensures r.1 == RemoveTemps(d, files)
  {
    var unlinked := fs == FsSync && UnlinkEachSucceeds(d, files);
    var throws := |files| > 0 && !unlinked;
    (if throws then ServerError else PayloadTooLarge, RemoveTemps(d, files))
  }

  /** As written, with the promise API bound, any over-quota batch that holds
      a file answers 500: the first `fs.unlinkSync` is not a function. */
  lemma OverQuotaAsWrittenAnswers500(d: Disk, files: seq<UploadedFile>)
    requires |files| > 0
    ensures RejectOverQuota(ControllerFs, d, files).0 == ServerError
    ensures RejectOverQuota(ControllerFs, d, files).1.files == d.files - TempPaths(files)
  {
  }

  /** With the synchronous API the branch answers 413 exactly when every
      temporary file is there to be unlinked. */
  lemma OverQuotaAnswers413(d: Disk, files: seq<UploadedFile>)
    ensures RejectOverQuota(FsSync, d, files).0 == PayloadTooLarge <==> TempsPresentAndDistinct(d, files)
    ensures RejectOverQuota(FsSync, d, files).0 != PayloadTooLarge ==>
              RejectOverQuota(FsSync, d, files).0 == ServerError
  {
    UnlinkEachSucceedsIff(d, files);
  }

  /** The binding the model of `uploadImage` uses for the over-quota branch. */
  const QuotaFs: FsBinding := FsSync

  // ---------------------------------------------------------------------------
  // The batch loop
  // ---------------------------------------------------------------------------

  /** What the foreign calls do for one file: the `Date.now()`-and-random
      suffix of its stored name, sharp's behaviour, and the clock when its row
      is inserted. */
  datatype FileEnv = FileEnv(suffix: string, run: SharpRun, now: int)

  /** Where the batch goes and how its URLs are formed. */
  datatype Target = Target(folderId: nat, userId: nat, protocol: string, host: string)

  /** `${protocol}://${host}/${path}`. */
  function UrlOf(protocol: string, host: string, path: string): string {
    protocol + "://" + host + "/" + path
  }

  /** The state of the loop: the images table, the upload directory, the records
      created so far, and whether `processAndSaveImage` has thrown. */
  datatype Batch = Batch(images: Table<Image>, disk: Disk, created: seq<Image>, failed: bool)

  /** The record `uploadImage` creates for `file`: the upload size, the target
      folder and the acting user, whatever the folder's owner. */
  predicate RecordOf(img: Image, file: UploadedFile, env: FileEnv, target: Target, id: nat) {
    var stored := StoredName(file.originalName, file.mimetype, env.suffix);
    && img.id == id
    && img.filename == file.originalName
    && img.storedFilename == stored
    && img.mimetype == StoredMimetype(file.originalName, file.mimetype)
    && img.size == file.size
    && img.folderId == target.folderId
    && img.userId == target.userId
    && img.url == UrlOf(target.protocol, target.host, DbPath(target.folderId, stored))
    && img.thumbnailFilename == ThumbnailName(stored)
    && img.thumbnailUrl == UrlOf(target.protocol, target.host, DbPath(target.folderId, ThumbnailName(stored)))
    && img.previewFilename == PreviewName(stored)
    && img.previewUrl == UrlOf(target.protocol, target.host, DbPath(target.folderId, PreviewName(stored)))
    && img.createdAt == env.now
  }

  /** `created` are the records of the first `|created|` files, numbered from
      `start`. */
  ghost predicate BatchRecords(files: seq<UploadedFile>, envs: seq<FileEnv>, target: Target,
                          start: nat, created: seq<Image>) {
    && |created| <= |files| == |envs|
    && forall i :: 0 <= i < |created| ==> RecordOf(created[i], files[i], envs[i], target, start + i)
  }

  /** The stored original of every record is in the folder's directory. */
  ghost predicate StoredOnDisk(folderId: nat, created: seq<Image>, d: Disk) {
    forall i :: 0 <= i < |created| ==> InFolder(folderId, created[i].storedFilename) in d.files
  }

  /** File `i` of the batch goes through the loop: its temporary file was on
      disk and no earlier file of the batch had the same one (processing a
      file moves its temporary file away), and sharp does every step. */
  ghost predicate GoesThrough(files: seq<UploadedFile>, envs: seq<FileEnv>, d: Disk, i: nat)
    requires i < |files| == |envs|
  {
    && Temp(files[i].tempPath) in d.files
    && (forall j :: 0 <= j < i ==> files[j].tempPath != files[i].tempPath)
    && SharpWorks(envs[i].run)
  }

  /** After the first `n` files went through, the temporary files on `d'` are
      those of `d` that none of them used. */
  ghost predicate TempsAfter(files: seq<UploadedFile>, n: nat, d: Disk, d': Disk)
    requires n <= |files|
  {
    forall path :: Temp(path) in d'.files <==>
                   Temp(path) in d.files && forall j :: 0 <= j < n ==> files[j].tempPath != path
  }

  /** Temporary files present and distinct, and sharp working for each, let
      every file of the batch go through. */
  lemma AllGoThrough(files: seq<UploadedFile>, envs: seq<FileEnv>, d: Disk)
    requires |files| == |envs|
    requires TempsPresentAndDistinct(d, files)
    requires forall i :: 0 <= i < |envs| ==> SharpWorks(envs[i].run)
    ensures forall i :: 0 <= i < |files| ==> GoesThrough(files, envs, d, i)
  {
  }

  /** One iteration of the upload loop: the file is processed, then its record
      inserted; a throw from `processAndSaveImage` leaves the table as it was
      and ends the loop. */
  method ProcessFile(file: UploadedFile, env: FileEnv, target: Target, b: Batch) returns (r: Batch, created: Option<Image>)
    requires !b.failed
    ensures r.failed <==> created.None?
    ensures r.failed <==> !Succeeds(file, env.run, b.disk)
    ensures r.failed ==> r.images == b.images && r.created == b.created
    ensures created.Some? ==>
              var img := created.value;
              && r.created == b.created + [img]
              && RecordOf(img, file, env, target, b.images.nextId)
              && r.images == Table(b.images.rows[b.images.nextId := img], b.images.nextId + 1)
              && (forall p :: p in b.disk.files && !p.Temp? ==> p in r.disk.files)
              && InFolder(target.folderId, img.storedFilename) in r.disk.files
              && (forall path :: Temp(path) in r.disk.files <==> Temp(path) in b.disk.files && path != file.tempPath)
  {
    var o := ProcessAndSaveImage(file, target.folderId, env.suffix, env.run, b.disk);
    if o.result.None? {
      return Batch(b.images, o.disk, b.created, true), None;
    }
    ProcessingMovesTemp(file, target.folderId, env.suffix, env.run, b.disk);
    var img;
    r, img := InsertProcessed(file, env, target, b, o.result.value, o.disk);
    ProcessedRecord(file, env, target, b.disk, b.images.nextId, img);
    created := Some(img);
  }

  /** The insert that follows a successful `processAndSaveImage`: the record
      takes the resolved names, and the resolved paths turned into URLs, under
      the next id. */
  method InsertProcessed(file: UploadedFile, env: FileEnv, target: Target, b: Batch, p: Processed, d: Disk)
    returns (r: Batch, img: Image)
    ensures r == Batch(Table(b.images.rows[b.images.nextId := img], b.images.nextId + 1), d, b.created + [img], false)
    ensures && img.id == b.images.nextId && img.filename == file.originalName
            && img.storedFilename == p.filename && img.mimetype == p.mimeType
            && img.size == file.size && img.folderId == target.folderId && img.userId == target.userId
            && img.url == UrlOf(target.protocol, target.host, p.path)
            && img.thumbnailFilename == p.thumbnailFilename
            && img.thumbnailUrl == UrlOf(target.protocol, target.host, p.thumbnailPath)
            && img.previewFilename == p.previewFilename
            && img.previewUrl == UrlOf(target.protocol, target.host, p.previewPath)
            && img.createdAt == env.now
  {
    var url := UrlOf(target.protocol, target.host, p.path);
    var thumbnailUrl := UrlOf(target.protocol, target.host, p.thumbnailPath);
    var previewUrl := UrlOf(target.protocol, target.host, p.previewPath);
    var (t', record) := ImageModel.Create(
      b.images, file.originalName, p.filename, p.mimeType, file.size, target.folderId, target.userId,
      url, p.thumbnailFilename, thumbnailUrl, p.previewFilename, previewUrl, env.now);
    img := record;
    r := Batch(t', d, b.created + [img], false);
  }

  /** A record built from what `processAndSaveImage` resolved with is the
      file's record. */
  lemma ProcessedRecord(file: UploadedFile, env: FileEnv, target: Target, d: Disk, id: nat, img: Image)
    requires ProcessAndSaveImage(file, target.folderId, env.suffix, env.run, d).result.Some?
    requires var p := ProcessAndSaveImage(file, target.folderId, env.suffix, env.run, d).result.value;
             && img.id == id && img.filename == file.originalName
             && img.storedFilename == p.filename && img.mimetype == p.mimeType
             && img.size == file.size && img.folderId == target.folderId && img.userId == target.userId
             && img.url == UrlOf(target.protocol, target.host, p.path)
             && img.thumbnailFilename == p.thumbnailFilename
             && img.thumbnailUrl == UrlOf(target.protocol, target.host, p.thumbnailPath)
             && img.previewFilename == p.previewFilename
             && img.previewUrl == UrlOf(target.protocol, target.host, p.previewPath)
             && img.createdAt == env.now
    ensures RecordOf(img, file, env, target, id)
  {
  }

  /** The upload loop: the files in order until one fails. The records it
      appends are those of the files processed, and they add up, for the acting
      user, to those files' upload sizes, and to nothing for anyone else. */
  method RunBatch(files: seq<UploadedFile>, envs: seq<FileEnv>, target: Target, t: Table<Image>, d: Disk)
    returns (b: Batch)
    requires |files| == |envs|
    ensures !b.failed <==> |b.created| == |files|
    ensures BatchRecords(files, envs, target, t.nextId, b.created)
    ensures forall i :: 0 <= i < |b.created| ==> GoesThrough(files, envs, d, i)
    ensures |b.created| < |files| ==> !GoesThrough(files, envs, d, |b.created|)
    ensures Appended(t, b.images, b.created)
    ensures !b.failed ==> StoredOnDisk(target.folderId, b.created, b.disk)
    ensures forall uid :: ImageModel.Billed(b.images, uid)
              == ImageModel.Billed(t, uid) + (if uid == target.userId then SumSizes(files[..|b.created|]) else 0)
  {
    b := Batch(t, d, [], false);
    var n := 0;
    while n < |files|
      invariant n <= |files| && !b.failed && |b.created| == n
      invariant BatchRecords(files, envs, target, t.nextId, b.created)
      invariant Appended(t, b.images, b.created)
      invariant StoredOnDisk(target.folderId, b.created, b.disk)
      invariant forall i :: 0 <= i < n ==> GoesThrough(files, envs, d, i)
      invariant TempsAfter(files, n, d, b.disk)
    {
      var next, created := ProcessFile(files[n], envs[n], target, b);
      if next.failed {
        assert !GoesThrough(files, envs, d, n);
        b := next;
        break;
      }
      BatchStep(files, envs, target, t, b, next, created.value);
      TempsStep(files, envs, n, d, b.disk, next.disk);
      b := next;
      n := n + 1;
    }
    forall uid
      ensures ImageModel.Billed(b.images, uid)
              == ImageModel.Billed(t, uid) + (if uid == target.userId then SumSizes(files[..|b.created|]) else 0)
    {
      BatchBilled(files, envs, target, t, b.images, b.created, uid);
    }
  }

  /** One more processed file keeps the loop's invariant. */
  lemma BatchStep(files: seq<UploadedFile>, envs: seq<FileEnv>, target: Target, t: Table<Image>,
                  b: Batch, next: Batch, img: Image)
    requires |b.created| < |files|
    requires BatchRecords(files, envs, target, t.nextId, b.created)
    requires Appended(t, b.images, b.created)
    requires StoredOnDisk(target.folderId, b.created, b.disk)
    requires next.created == b.created + [img]
    requires RecordOf(img, files[|b.created|], envs[|b.created|], target, b.images.nextId)
    requires next.images == Table(b.images.rows[b.images.nextId := img], b.images.nextId + 1)
    requires forall p :: p in b.disk.files && !p.Temp? ==> p in next.disk.files
    requires InFolder(target.folderId, img.storedFilename) in next.disk.files
    ensures BatchRecords(files, envs, target, t.nextId, next.created)
    ensures Appended(t, next.images, next.created)
    ensures StoredOnDisk(target.folderId, next.created, next.disk)
  {
    var n := |b.created|;
    AppendedStep(t, b.images, b.created, img);
    forall i | 0 <= i < n + 1
      ensures InFolder(target.folderId, next.created[i].storedFilename) in next.disk.files
      ensures RecordOf(next.created[i], files[i], envs[i], target, t.nextId + i)
    {
      if i < n { assert next.created[i] == b.created[i]; }
    }
  }

  /** A file that was processed moves its own temporary file away, and only
      that one; it went through. */
  lemma TempsStep(files: seq<UploadedFile>, envs: seq<FileEnv>, n: nat, d: Disk, before: Disk, after: Disk)
    requires n < |files| == |envs|
    requires forall i :: 0 <= i < n ==> GoesThrough(files, envs, d, i)
    requires TempsAfter(files, n, d, before)
    requires Succeeds(files[n], envs[n].run, before)
    requires forall path :: Temp(path) in after.files <==> Temp(path) in before.files && path != files[n].tempPath
    ensures forall i :: 0 <= i < n + 1 ==> GoesThrough(files, envs, d, i)
    ensures TempsAfter(files, n + 1, d, after)
  {
    assert GoesThrough(files, envs, d, n);
    forall path
      ensures Temp(path) in after.files <==>
              Temp(path) in d.files && forall j :: 0 <= j < n + 1 ==> files[j].tempPath != path
    {
      if Temp(path) in after.files {
        assert Temp(path) in before.files;
      }
    }
  }

  /** What the records of a batch add to each user's sum. */
  lemma BatchBilled(files: seq<UploadedFile>, envs: seq<FileEnv>, target: Target, t: Table<Image>,
                    images: Table<Image>, created: seq<Image>, uid: nat)
    requires BatchRecords(files, envs, target, t.nextId, created)
    requires Appended(t, images, created)
    ensures ImageModel.Billed(images, uid)
            == ImageModel.Billed(t, uid) + (if uid == target.userId then SumSizes(files[..|created|]) else 0)
  {
    ImageModel.BilledAfterAppend(t, images, created, uid);
    assert forall i :: 0 <= i < |created| ==>
             created[i].userId == target.userId && created[i].size == files[i].size;
    OwnedSizeOfRecords(files, target, created, uid);
  }

  /** Records that belong to the acting user and carry the upload sizes of
      the files, one per file, own for that user the files' summed size, and
      nothing for anyone else. */
  lemma {:induction false} OwnedSizeOfRecords(files: seq<UploadedFile>, target: Target, created: seq<Image>, uid: nat)
    requires |created| <= |files|
    requires forall i :: 0 <= i < |created| ==> created[i].userId == target.userId && created[i].size == files[i].size
    ensures ImageModel.OwnedSize(created, uid) == (if uid == target.userId then SumSizes(files[..|created|]) else 0)
    decreases |created|
  {
    if |created| > 0 {
      var m := |created| - 1;
      OwnedSizeOfRecords(files, target, created[..m], uid);
      assert files[..m + 1][..m] == files[..m];
    }
  }

  // ---------------------------------------------------------------------------
  // uploadImage
  // ---------------------------------------------------------------------------

  /** The foreign inputs of one upload request. */
  datatype UploadEnv = UploadEnv(protocol: string, host: string, perFile: seq<FileEnv>)

  datatype UploadBody =
    | NoBody                                   // an error message only
    | SkippedEcho(skipped: seq<string>)        // every file was of an unsupported format
    | Uploaded(newImages: seq<Image>, echoed: Option<seq<string>>)

  /** The status, the body, the image records the request inserted (whether or
      not the response lists them), and the new state. */
  datatype UploadReply = UploadReply(status: nat, body: UploadBody, inserted: seq<Image>, db: Db, disk: Disk)

  /** The checks before the quota pass: there are files, a folder id, the
      folder exists, the caller may write to it and the caller's user row
      exists. */
  predicate PassesChecks(db: Db, actor: Principal, folderParam: Option<nat>, files: seq<UploadedFile>) {
    && |files| > 0
    && folderParam.Some?
    && folderParam.value in db.folders.rows
    && CanManageFolder(db.folders.rows[folderParam.value], actor)
    && actor.id in db.users.rows
  }

  /** Every check before the processing loop passes, the quota included
      (equality fits). */
  predicate Admitted(db: Db, actor: Principal, folderParam: Option<nat>, files: seq<UploadedFile>) {
    && PassesChecks(db, actor, folderParam, files)
    && db.users.rows[actor.id].storageUsed + SumSizes(files) <= db.users.rows[actor.id].storageLimit
  }

  /** The checks before the quota, in the handler's order: the refusal they
      answer with, or nothing when the request gets past them. */
  function Screen(db: Db, actor: Principal, folderParam: Option<nat>, files: seq<UploadedFile>,
                  skipped: seq<string>): (r: Option<(nat, UploadBody)>)
    ensures r.None? <==> PassesChecks(db, actor, folderParam, files)
    ensures r.Some? ==> r.value.0 in {BadRequest, NotFound, Forbidden}
    ensures (r.Some? && r.value.0 == BadRequest) <==> |files| == 0 || folderParam.None?
    ensures (r.Some? && r.value.1.SkippedEcho?) <==> |files| == 0 && |skipped| > 0 && folderParam.Some?
    ensures r.Some? && !r.value.1.SkippedEcho? ==> r.value.1.NoBody?
    ensures r.Some? && r.value.1.SkippedEcho? ==> r.value.1.skipped == skipped
    ensures (r.Some? && r.value.0 == NotFound) <==>
              |files| > 0 && folderParam.Some?
              && (folderParam.value !in db.folders.rows
                  || (CanManageFolder(db.folders.rows[folderParam.value], actor) && actor.id !in db.users.rows))
    ensures (r.Some? && r.value.0 == Forbidden) <==>
              |files| > 0 && folderParam.Some? && folderParam.value in db.folders.rows
              && !CanManageFolder(db.folders.rows[folderParam.value], actor)
  {
    if |files| == 0 && |skipped| == 0 then Some((BadRequest, NoBody))
    else if folderParam.None? then Some((BadRequest, NoBody))
    else if |files| == 0 then Some((BadRequest, SkippedEcho(skipped)))
    else
      match FolderModel.FindById(db.folders, folderParam.value)
      case None => Some((NotFound, NoBody))
      case Some(folder) =>
        if !CanManageFolder(folder, actor) then Some((Forbidden, NoBody))
        else if UserModel.FindById(db.users, actor.id).None? then Some((NotFound, NoBody))
        else None
  }

  /** The admitted part of `uploadImage`: the loop, then one increment of the
      counter by the whole batch's size and 201; a throw anywhere answers 500
      after removing the temporary files, with the rows inserted so far left
      in place and the counter untouched. */
  method StoreBatch(db: Db, disk: Disk, actor: Principal, folderId: nat,
                    files: seq<UploadedFile>, skipped: seq<string>, env: UploadEnv) returns (r: UploadReply)
    requires |env.perFile| == |files|
    ensures r.status in {CreatedStatus, ServerError}
    ensures r.db.folders == db.folders
    ensures Appended(db.images, r.db.images, r.inserted)
    ensures BatchRecords(files, env.perFile, Target(folderId, actor.id, env.protocol, env.host),
                         db.images.nextId, r.inserted)
    ensures Ledger.BilledMoved(db.images, r.db.images, actor.id, SumSizes(files[..|r.inserted|]))
    ensures r.status == ServerError ==>
              && |r.inserted| < |files| && r.body == NoBody && r.db.users == db.users
              && r.disk.files !! TempPaths(files)
    ensures r.status == CreatedStatus ==>
              && |r.inserted| == |files|
              && r.body == Uploaded(r.inserted, if |skipped| > 0 then Some(skipped) else None)
              && r.db.users == UserModel.UpdateStorageUsed(db.users, actor.id, SumSizes(files)).table
              && StoredOnDisk(folderId, r.inserted, r.disk)
    ensures r.status == CreatedStatus ==>
              forall base :: Ledger.Consistent(db, base) ==> Ledger.Consistent(r.db, base)
    ensures r.status == ServerError && actor.id in db.users.rows && SumSizes(files[..|r.inserted|]) > 0 ==>
              forall base :: Ledger.Consistent(db, base) ==> !Ledger.Consistent(r.db, base)
    // which file, if any, stops the loop
    ensures forall i :: 0 <= i < |r.inserted| ==> GoesThrough(files, env.perFile, disk, i)
    ensures r.status == ServerError ==> !GoesThrough(files, env.perFile, disk, |r.inserted|)
    ensures r.status == CreatedStatus <==> forall i :: 0 <= i < |files| ==> GoesThrough(files, env.perFile, disk, i)
    ensures TempsPresentAndDistinct(disk, files) && (forall i :: 0 <= i < |files| ==> SharpWorks(env.perFile[i].run))
            ==> r.status == CreatedStatus
  {
    var target := Target(folderId, actor.id, env.protocol, env.host);
    var b := RunBatch(files, env.perFile, target, db.images, disk);
    BatchStopsAt(files, env.perFile, disk, |b.created|);
    if TempsPresentAndDistinct(disk, files) && (forall i :: 0 <= i < |files| ==> SharpWorks(env.perFile[i].run)) {
      AllGoThrough(files, env.perFile, disk);
    }
    r := SettleBatch(db, actor, folderId, files, skipped, b);
  }

  /** The loop stops after `n` files exactly when the first `n` went through
      and the next did not: it got through the whole batch iff every file goes
      through. */
  lemma BatchStopsAt(files: seq<UploadedFile>, envs: seq<FileEnv>, d: Disk, n: nat)
    requires n <= |files| == |envs|
    requires forall i :: 0 <= i < n ==> GoesThrough(files, envs, d, i)
    requires n < |files| ==> !GoesThrough(files, envs, d, n)
    ensures n == |files| <==> forall i :: 0 <= i < |files| ==> GoesThrough(files, envs, d, i)
  {
  }

  /** What follows the loop: after a throw, the temporary files are removed and
      500 answered, with the inserted rows kept and the counter untouched;
      otherwise the counter grows by the whole batch's size and 201 lists the
      new records. */
  method SettleBatch(db: Db, actor: Principal, folderId: nat, files: seq<UploadedFile>, skipped: seq<string>, b: Batch)
    returns (r: UploadReply)
    requires |b.created| <= |files|
    requires !b.failed <==> |b.created| == |files|
    requires Ledger.BilledMoved(db.images, b.images, actor.id, SumSizes(files[..|b.created|]))
    requires !b.failed ==> StoredOnDisk(folderId, b.created, b.disk)
    ensures r.status == (if b.failed then ServerError else CreatedStatus)
    ensures r.inserted == b.created && r.db.images == b.images && r.db.folders == db.folders
    ensures r.status == ServerError ==>
              && r.body == NoBody && r.db.users == db.users
              && r.disk.files !! TempPaths(files)
    ensures r.status == CreatedStatus ==>
              && r.body == Uploaded(r.inserted, if |skipped| > 0 then Some(skipped) else None)
              && r.db.users == UserModel.UpdateStorageUsed(db.users, actor.id, SumSizes(files)).table
              && StoredOnDisk(folderId, r.inserted, r.disk)
    ensures r.status == CreatedStatus ==>
              forall base :: Ledger.Consistent(db, base) ==> Ledger.Consistent(r.db, base)
    ensures r.status == ServerError && actor.id in db.users.rows && SumSizes(files[..|r.inserted|]) > 0 ==>
              forall base :: Ledger.Consistent(db, base) ==> !Ledger.Consistent(r.db, base)
  {
    if b.failed {
      var delta := SumSizes(files[..|b.created|]);
      if actor.id in db.users.rows && delta > 0 {
        forall base | Ledger.Consistent(db, base) ensures !Ledger.Consistent(db.(images := b.images), base) {
          Ledger.UnchargedRecordsBreakConsistent(db, b.images, actor.id, delta, base);
        }
      }
      return UploadReply(ServerError, NoBody, b.created, db.(images := b.images), RemoveTemps(b.disk, files));
    }
    var users := UserModel.UpdateStorageUsed(db.users, actor.id, SumSizes(files)).table;
    assert files[..|b.created|] == files;
    forall base | Ledger.Consistent(db, base) ensures Ledger.Consistent(Db(users, db.folders, b.images), base) {
      Ledger.ChargeKeepsConsistent(db, b.images, actor.id, SumSizes(files), base);
    }
    r := UploadReply(CreatedStatus, Uploaded(b.created, if |skipped| > 0 then Some(skipped) else None),
                     b.created, Db(users, db.folders, b.images), b.disk);
  }

  /** `uploadImage`. `files` is empty when multer left `req.files` unset, and
      `skipped` is `req.skippedFiles`. */
  method UploadImage(db: Db, disk: Disk, actor: Principal, folderParam: Option<nat>,
                     files: seq<UploadedFile>, skipped: seq<string>, env: UploadEnv) returns (r: UploadReply)
    requires |env.perFile| == |files|
    // the refusals before the quota, in the handler's order, with no side effect
    ensures r.status == BadRequest <==> |files| == 0 || folderParam.None?
    ensures r.body.SkippedEcho? <==> |files| == 0 && |skipped| > 0 && folderParam.Some?
    ensures r.body.SkippedEcho? ==> r.body.skipped == skipped
    ensures r.status == NotFound <==>
              |files| > 0 && folderParam.Some?
              && (folderParam.value !in db.folders.rows
                  || (CanManageFolder(db.folders.rows[folderParam.value], actor) && actor.id !in db.users.rows))
    ensures r.status == Forbidden <==>
              |files| > 0 && folderParam.Some? && folderParam.value in db.folders.rows
              && !CanManageFolder(db.folders.rows[folderParam.value], actor)
    ensures r.status in {BadRequest, NotFound, Forbidden} ==> r.db == db && r.disk == disk
    // the quota check
    ensures !Admitted(db, actor, folderParam, files) ==> r.db == db && r.inserted == []
    ensures r.status == PayloadTooLarge ==>
              && PassesChecks(db, actor, folderParam, files) && !Admitted(db, actor, folderParam, files)
              && TempsPresentAndDistinct(disk, files)
    ensures r.status in {PayloadTooLarge, ServerError} ==> r.disk.files !! TempPaths(files)
    ensures Admitted(db, actor, folderParam, files) ==> r.status in {CreatedStatus, ServerError}
    ensures r.status == CreatedStatus ==> Admitted(db, actor, folderParam, files)
    // the records inserted, whether or not the response lists them
    ensures r.db.folders == db.folders
    ensures Appended(db.images, r.db.images, r.inserted)
    ensures folderParam.Some? ==>
              BatchRecords(files, env.perFile, Target(folderParam.value, actor.id, env.protocol, env.host),
                           db.images.nextId, r.inserted)
    ensures r.status == ServerError ==> r.db.users == db.users
    ensures r.status == CreatedStatus ==>
              && |r.inserted| == |files|
              && r.body == Uploaded(r.inserted, if |skipped| > 0 then Some(skipped) else None)
              && folderParam.Some?
              && r.db.users == UserModel.UpdateStorageUsed(db.users, actor.id, SumSizes(files)).table
              && StoredOnDisk(folderParam.value, r.inserted, r.disk)
    // what they bill, and the storage ledger
    ensures Ledger.BilledMoved(db.images, r.db.images, actor.id, SumSizes(files[..|r.inserted|]))
    ensures r.status != ServerError ==>
              forall base :: Ledger.Consistent(db, base) ==> Ledger.Consistent(r.db, base)
    ensures r.status == ServerError && actor.id in db.users.rows && SumSizes(files[..|r.inserted|]) > 0 ==>
              forall base :: Ledger.Consistent(db, base) ==> !Ledger.Consistent(r.db, base)
    // every answer is one of these
    ensures r.status in {BadRequest, NotFound, Forbidden, PayloadTooLarge, CreatedStatus, ServerError}
    // over quota: 413 when the temporary files can all be unlinked, else 500
    ensures PassesChecks(db, actor, folderParam, files) && !Admitted(db, actor, folderParam, files) ==>
              && r.status in {PayloadTooLarge, ServerError}
              && (r.status == PayloadTooLarge <==> TempsPresentAndDistinct(disk, files))
    // admitted: 201 exactly when every file goes through, else 500 at the first that does not
    ensures Admitted(db, actor, folderParam, files) ==>
              (r.status == CreatedStatus <==> forall i :: 0 <= i < |files| ==> GoesThrough(files, env.perFile, disk, i))
    ensures Admitted(db, actor, folderParam, files) && r.status == ServerError ==>
              |r.inserted| < |files| && !GoesThrough(files, env.perFile, disk, |r.inserted|)
    ensures Admitted(db, actor, folderParam, files) && TempsPresentAndDistinct(disk, files)
            && (forall i :: 0 <= i < |files| ==> SharpWorks(env.perFile[i].run))
            ==> r.status == CreatedStatus
  {
    var refusal := Screen(db, actor, folderParam, files, skipped);
    if refusal.Some? {
      return UploadReply(refusal.value.0, refusal.value.1, [], db, disk);
    }
    var user := db.users.rows[actor.id];
    if user.storageUsed + SumSizes(files) > user.storageLimit {
      var (status, disk') := RejectOverQuota(QuotaFs, disk, files);
      OverQuotaAnswers413(disk, files);
      return UploadReply(status, NoBody, [], db, disk');
    }
    r := StoreBatch(db, disk, actor, folderParam.value, files, skipped, env);
  }

  // ---------------------------------------------------------------------------
  // getImagesInFolder
  // ---------------------------------------------------------------------------

  datatype ListReply = ListReply(status: nat, images: seq<Image>)

  /** `getImagesInFolder`: the folder visibility rule, then the folder's images
      newest first. */
  function GetImagesInFolder(db: Db, caller: Option<Principal>, folderId: nat): (r: ListReply)
    ensures r.status == NotFound <==> folderId !in db.folders.rows
    ensures r.status == Forbidden <==>
              folderId in db.folders.rows && !CanViewFolder(db.folders.rows[folderId], caller)
    ensures r.status == Ok <==>
              folderId in db.folders.rows && CanViewFolder(db.folders.rows[folderId], caller)
    ensures r.status != Ok ==> r.images == []
    ensures Bounded(db.images) && r.status == Ok ==>
              forall x :: x in r.images <==> x in db.images.rows.Values && x.folderId == folderId
    ensures forall i, j :: 0 <= i < j < |r.images| ==> r.images[i].createdAt >= r.images[j].createdAt
    ensures ImagesKeyed(db.images) ==> NoDuplicates(r.images)
  {
    match FolderModel.FindById(db.folders, folderId)
    case None => ListReply(NotFound, [])
    case Some(folder) =>
      if !CanViewFolder(folder, caller) then ListReply(Forbidden, [])
      else ListReply(Ok, ImageModel.FindByFolderId(db.images, Some(folderId)))
  }

  // ---------------------------------------------------------------------------
  // deleteImage
  // ---------------------------------------------------------------------------

  /** The renditions of a record on disk: each name it has (a NULL name has
      none) inside its folder's directory. */
  function Renditions(img: Image): set<FilePath> {
    (if img.storedFilename != "" then {InFolder(img.folderId, img.storedFilename)} else {})
    + (if img.thumbnailFilename != "" then {InFolder(img.folderId, img.thumbnailFilename)} else {})
    + (if img.previewFilename != "" then {InFolder(img.folderId, img.previewFilename)} else {})
  }

  datatype Reply = Reply(status: nat, db: Db, disk: Disk)

  /** Removes the renditions that are there, then the folder's directory if
      nothing is left in it; a missing file or directory is not an error. */
  function RemoveRenditions(d: Disk, img: Image): (r: Disk)
    ensures r.files == d.files - Renditions(img)
    ensures img.folderId !in r.dirs <==> img.folderId !in d.dirs || DirEmpty(r, img.folderId)
    ensures r.dirs - {img.folderId} == d.dirs - {img.folderId}
  {
    var dir := img.folderId;
    var d1 := if img.storedFilename != "" then Unlink(d, InFolder(dir, img.storedFilename)) else d;
    var d2 := if img.thumbnailFilename != "" then Unlink(d1, InFolder(dir, img.thumbnailFilename)) else d1;
    var d3 := if img.previewFilename != "" then Unlink(d2, InFolder(dir, img.previewFilename)) else d2;
    assert d3.files == d.files - Renditions(img);
    if DirEmpty(d3, dir) then d3.(dirs := d3.dirs - {dir}) else d3
  }

  /** `deleteImage`: 404 for an unknown image, 403 unless the caller uploaded it
      or is an administrator; otherwise the files go, the uploader's counter is
      reduced by the record's size and the record is removed. */
  function DeleteImage(db: Db, disk: Disk, actor: Principal, id: nat): (r: Reply)
    ensures r.status == NotFound <==> id !in db.images.rows
    ensures r.status == Forbidden <==> id in db.images.rows && !CanManageImage(db.images.rows[id], actor)
    ensures r.status == Ok <==> id in db.images.rows && CanManageImage(db.images.rows[id], actor)
    ensures r.status != Ok ==> r.db == db && r.disk == disk
    ensures r.status == Ok ==>
              var img := db.images.rows[id];
              && r.disk == RemoveRenditions(disk, img)
              && r.db.users == UserModel.UpdateStorageUsed(db.users, img.userId, -(img.size as int)).table
              && r.db.images == ImageModel.Delete(db.images, id)
              && r.db.folders == db.folders
  {
    match ImageModel.FindById(db.images, id)
    case None => Reply(NotFound, db, disk)
    case Some(img) =>
      if !CanManageImage(img, actor) then Reply(Forbidden, db, disk)
      else
        var users := UserModel.UpdateStorageUsed(db.users, img.userId, -(img.size as int)).table;
        Reply(Ok, Db(users, db.folders, ImageModel.Delete(db.images, id)), RemoveRenditions(disk, img))
  }

  /** A deletion keeps the storage ledger: the counter of the record's
      uploader goes down by exactly the size its records lose. */
  lemma DeleteKeepsLedger(db: Db, disk: Disk, actor: Principal, id: nat, base: map<nat, int>)
    requires Bounded(db.images) && Ledger.Consistent(db, base)
    ensures Ledger.Consistent(DeleteImage(db, disk, actor, id).db, base)
  {
    var r := DeleteImage(db, disk, actor, id);
    if r.status == Ok {
      var img := db.images.rows[id];
      var images := ImageModel.Delete(db.images, id);
      forall u ensures ImageModel.Billed(images, u)
                       == ImageModel.Billed(db.images, u) + (if u == img.userId then -(img.size as int) else 0)
      {
        ImageModel.BilledAfterDelete(db.images, id, u);
      }
      Ledger.ChargeKeepsConsistent(db, images, img.userId, -(img.size as int), base);
    }
  }

  // ---------------------------------------------------------------------------
  // downloadBulkImages
  // ---------------------------------------------------------------------------

  /** The `imageIds` field of the request body: absent or falsy, present but
      not an array, or an array of ids. */
  datatype IdsParam = IdsMissing | IdsNotArray | IdsArray(ids: seq<nat>)

  /** An archive entry: its name inside the zip and the file it is read from. */
  datatype Entry = Entry(name: string, source: FilePath)

  datatype Archive = Archive(name: string, entries: seq<Entry>)

  datatype DownloadReply = DownloadReply(status: nat, archive: Option<Archive>)

  /** The outcome of the access checks: a refusal, or the archive's base name. */
  datatype Verdict = Refuse(status: nat) | Allow(name: string)

  /** The stored original of a record, where the archive reads it from. */
  function OriginalPath(img: Image): FilePath {
    InFolder(img.folderId, img.storedFilename)
  }

  /** The entries of the archive: one per record with a stored name whose file
      exists, named after the original upload, in record order. */
  function ArchiveEntries(images: seq<Image>, d: Disk): (r: seq<Entry>)
    ensures |r| <= |images|
    ensures forall e :: e in r <==>
              exists img :: img in images && img.storedFilename != "" && OriginalPath(img) in d.files
                            && e == Entry(img.filename, OriginalPath(img))
    decreases |images|
  {
    if |images| == 0 then []
    else
      var img := images[0];
      var rest := ArchiveEntries(images[1..], d);
      assert forall x :: x in images <==> x == img || x in images[1..];
      if img.storedFilename != "" && OriginalPath(img) in d.files
      then [Entry(img.filename, OriginalPath(img))] + rest
      else rest
  }

  /** One record contributes one entry when its original is on disk, and
      none otherwise. */
  lemma ArchiveEntriesSingleton(img: Image, d: Disk)
    ensures img.storedFilename != "" && OriginalPath(img) in d.files ==>
              ArchiveEntries([img], d) == [Entry(img.filename, OriginalPath(img))]
    ensures img.storedFilename == "" || OriginalPath(img) !in d.files ==>
              ArchiveEntries([img], d) == []
  {
    assert [img][1..] == [];
  }

  /** The records are archived one after another: the entries of a
      concatenation are the entries of each part, in order. With
      `ArchiveEntriesSingleton` this fixes every entry and its position. */
  lemma {:induction false} ArchiveEntriesAppend(a: seq<Image>, b: seq<Image>, d: Disk)
    ensures ArchiveEntries(a + b, d) == ArchiveEntries(a, d) + ArchiveEntries(b, d)
    decreases |a|
  {
    if |a| == 0 {
      assert a + b == b;
    } else {
      assert (a + b)[1..] == a[1..] + b;
      ArchiveEntriesAppend(a[1..], b, d);
    }
  }

  /** `downloadBulkImages`. */
  function DownloadBulkImages(db: Db, disk: Disk, caller: Option<Principal>, param: IdsParam): (r: DownloadReply)
    ensures !param.IdsArray? || |param.ids| == 0 ==> r.status == BadRequest
    ensures r.status == Ok <==> r.archive.Some?
    ensures param.IdsArray? && |param.ids| > 0 ==>
              var found := ImageModel.FindByIds(db.images, Some(param.ids));
              && (r.status == NotFound <==> |found| == 0)
              && (caller.Some? && |found| > 0 ==>
                    && (r.status == Forbidden <==> exists img :: img in found && !CanManageImage(img, caller.value))
                    && (r.status == Ok <==> forall img :: img in found ==> CanManageImage(img, caller.value))
                    && (r.status == Ok ==> r.archive.value.name == "images.zip"))
              && (caller.None? && |found| > 0 ==>
                    var fid := found[0].folderId;
                    && (r.status == Forbidden <==> fid !in db.folders.rows || !db.folders.rows[fid].isPublic)
                    && (r.status == BadRequest <==>
                          fid in db.folders.rows && db.folders.rows[fid].isPublic
                          && exists img :: img in found && img.folderId != db.folders.rows[fid].id)
                    && (r.status == Ok <==>
                          fid in db.folders.rows && db.folders.rows[fid].isPublic
                          && forall img :: img in found ==> img.folderId == db.folders.rows[fid].id)
                    && (r.status == Ok ==> r.archive.value.name == db.folders.rows[fid].name + ".zip"))
              && (r.status == Ok ==> r.archive.value.entries == ArchiveEntries(found, disk))
    ensures r.status in {BadRequest, NotFound, Forbidden, Ok}
  {
    if !param.IdsArray? || |param.ids| == 0 then DownloadReply(BadRequest, None)
    else
      var images := ImageModel.FindByIds(db.images, Some(param.ids));
      if |images| == 0 then DownloadReply(NotFound, None)
      else
        var folderName :=
          match caller
          case Some(user) =>
            if exists img :: img in images && !CanManageImage(img, user) then Refuse(Forbidden)
            else Allow("images")
          case None =>
            match FolderModel.FindById(db.folders, images[0].folderId)
            case None => Refuse(Forbidden)
            case Some(folder) =>
              if !folder.isPublic then Refuse(Forbidden)
              else if exists img :: img in images && img.folderId != folder.id then Refuse(BadRequest)
              else Allow(folder.name);
        match folderName
        case Refuse(status) => DownloadReply(status, None)
        case Allow(name) => DownloadReply(Ok, Some(Archive(name + ".zip", ArchiveEntries(images, disk))))
  }
}
