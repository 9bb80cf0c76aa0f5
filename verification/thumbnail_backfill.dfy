/** The backfill script `generateThumbnailsForExistingImages` and the service
    call it makes, `generateThumbnail`. Legacy images stored directly under
    `uploads/` and recorded without a thumbnail get one; each image is attempted
    on its own, and a failure is logged and passed over. */
module ThumbnailBackfill {
  import opened Wrappers
  import opened Text
  import opened Tables
  import opened Records
  import opened Disk
  import ImageModel
  import ImageProcessing

  /** What the foreign calls of `generateThumbnail` do for one image: the uuid
      it draws, and whether sharp wrote the file. The script attempts each image
      once, so the run is looked up by the image's id. */
  datatype ThumbRun = ThumbRun(uuid: string, written: bool)

  /** The name `generateThumbnail` writes: `thumb_<uuid>.jpg`. */
  function StandaloneThumbnailName(uuid: string): string {
    "thumb_" + uuid + ".jpg"
  }

  /** The origin the script hard-codes into thumbnail URLs. */
  const BackendOrigin: string := "http://localhost:5000"

  function BackfillUrl(name: string): string {
    BackendOrigin + "/uploads/" + name
  }

  /** `generateThumbnail(originalPath, uploadsDir)`: the thumbnail goes directly
      into the upload directory, whatever the original's path; sharp failing
      rejects the call. */
  function GenerateThumbnail(run: ThumbRun, d: Disk): (r: (Option<string>, Disk))
    ensures r.0.Some? <==> run.written
    ensures r.0.Some? ==> r.0.value == StandaloneThumbnailName(run.uuid)
                          && r.1.files == d.files + {AtRoot(r.0.value)} && r.1.dirs == d.dirs
    ensures r.0.None? ==> r.1 == d
  {
    if !run.written then (None, d)
    else
      var name := StandaloneThumbnailName(run.uuid);
      (Some(name), Put(d, AtRoot(name)))
  }

  /** The name `generatePreview` writes: `preview-<uuid>.webp`. */
  function StandalonePreviewName(uuid: string): string {
    "preview-" + uuid + ".webp"
  }

  /** `generatePreview(originalPath, uploadsDir)`: like `generateThumbnail`,
      with its own name; no script in the repository calls it. */
  function GeneratePreview(run: ThumbRun, d: Disk): (r: (Option<string>, Disk))
    ensures r.0.Some? <==> run.written
    ensures r.0.Some? ==> r.0.value == StandalonePreviewName(run.uuid)
                          && r.1.files == d.files + {AtRoot(r.0.value)} && r.1.dirs == d.dirs
    ensures r.0.None? ==> r.1 == d
  {
    if !run.written then (None, d)
    else
      var name := StandalonePreviewName(run.uuid);
      (Some(name), Put(d, AtRoot(name)))
  }

  /** The two standalone renditions never share a name, whatever uuids are
      drawn, and neither clashes with the `thumb-` names of uploads. */
  lemma StandaloneNamesDistinct(u: string, v: string, stored: string)
    ensures StandaloneThumbnailName(u) != StandalonePreviewName(v)
    ensures StandaloneThumbnailName(u) != ImageProcessing.ThumbnailName(stored)
  {
    assert StandaloneThumbnailName(u)[0] != StandalonePreviewName(v)[0];
    assert StandaloneThumbnailName(u)[5] != ImageProcessing.ThumbnailName(stored)[5];
  }

  /** `cleanupThumbnail(path)`: the file is removed; a failure, a missing file
      included, is only logged. */
  function CleanupThumbnail(d: Disk, name: string): (r: Disk)
    ensures AtRoot(name) !in r.files
    ensures forall p :: p != AtRoot(name) ==> (p in r.files <==> p in d.files)
    ensures r.dirs == d.dirs
  {
    Unlink(d, AtRoot(name))
  }

  /** Cleaning up a thumbnail just generated, under a name that was free,
      gives back the directory as it was. */
  lemma CleanupUndoesGenerate(run: ThumbRun, d: Disk)
    requires AtRoot(StandaloneThumbnailName(run.uuid)) !in d.files
    ensures var g := GenerateThumbnail(run, d);
            CleanupThumbnail(g.1, StandaloneThumbnailName(run.uuid)) == d
  {
    var g := GenerateThumbnail(run, d);
    var c := CleanupThumbnail(g.1, StandaloneThumbnailName(run.uuid));
    assert c.files == d.files;
  }

  /** `!img.thumbnail_filename`: NULL and "" both count as missing. */
  predicate NeedsThumbnail(img: Image) {
    img.thumbnailFilename == ""
  }

  /** The images the script considers: every image (`findByFolderId(null)`,
      newest first) that has no thumbnail. */
  function Candidates(t: Table<Image>): (r: seq<Image>)
    ensures forall i :: 0 <= i < |r| ==> NeedsThumbnail(r[i])
    ensures Bounded(t) ==> forall x :: x in r <==> x in t.rows.Values && NeedsThumbnail(x)
    ensures ImagesKeyed(t) ==> NoDuplicates(r)
  {
    var r := Where(ImageModel.FindByFolderId(t, None), NeedsThumbnail);
    assert forall i :: 0 <= i < |r| ==> NeedsThumbnail(r[i]) by {
      forall i | 0 <= i < |r| ensures NeedsThumbnail(r[i]) { assert r[i] in r; }
    }
    r
  }

  /** An image uploaded through the controller is recorded with its
      thumbnail, so the backfill never reconsiders it. */
  lemma UploadedImagesAreNotCandidates(storedName: string, img: Image)
    requires img.thumbnailFilename == ImageProcessing.ThumbnailName(storedName)
    ensures !NeedsThumbnail(img)
  {
    assert |img.thumbnailFilename| >= |"thumb-"|;
  }

  /** What became of one candidate. */
  datatype Step = MissingOriginal | Unsupported | Generated | Failed

  /** The row after its thumbnail was recorded. */
  function Thumbed(img: Image, run: ThumbRun): Image {
    var name := StandaloneThumbnailName(run.uuid);
    img.(thumbnailFilename := name, thumbnailUrl := BackfillUrl(name))
  }

  /** The step taken for `img` agrees with the rules of the loop body: skipped
      when the original `uploads/<stored_filename>` was missing (it was not in
      the directory before the run, and whatever is missing after the run was
      skipped as missing), skipped when the format is unsupported, otherwise
      generated or failed as sharp did. */
  predicate StepFollowsRules(img: Image, s: Step, run: ThumbRun, before: Disk, after: Disk) {
    var supported := ImageProcessing.IsSupportedImageFormat(img.mimetype);
    && (s == MissingOriginal ==> AtRoot(img.storedFilename) !in before.files)
    && (AtRoot(img.storedFilename) !in after.files ==> s == MissingOriginal)
    && (s == Unsupported <==> s != MissingOriginal && !supported)
    && (s == Failed <==> s != MissingOriginal && supported && !run.written)
    && (s == Generated <==> s != MissingOriginal && supported && run.written)
  }

  /** The ids of the candidates among the first `|steps|` whose thumbnail was
      generated. */
  ghost function GeneratedIds(cands: seq<Image>, steps: seq<Step>): set<nat> {
    set i | 0 <= i < |steps| && i < |cands| && steps[i] == Generated :: cands[i].id
  }

  /** The loop body for one candidate. */
  function Attempt(img: Image, run: ThumbRun, t: Table<Image>, d: Disk): (r: (Step, Table<Image>, Disk))
    ensures StepFollowsRules(img, r.0, run, d, r.2)
    ensures d.files <= r.2.files && r.2.dirs == d.dirs
    ensures forall p :: p in r.2.files && p !in d.files ==> p == AtRoot(StandaloneThumbnailName(run.uuid))
    ensures r.0 != Generated ==> r.1 == t
    ensures r.0 == Generated ==> r.1 == ImageModel.UpdateThumbnail(t, img.id, Thumbed(img, run).thumbnailFilename,
                                                                   Thumbed(img, run).thumbnailUrl).table
  {
    if AtRoot(img.storedFilename) !in d.files then (MissingOriginal, t, d)
    else if !ImageProcessing.IsSupportedImageFormat(img.mimetype) then (Unsupported, t, d)
    else
      match GenerateThumbnail(run, d)
      case (None, _) => (Failed, t, d)
      case (Some(name), d') =>
        (Generated, ImageModel.UpdateThumbnail(t, img.id, name, BackfillUrl(name)).table, d')
  }

  /** The log of the first `|steps|` candidates follows the rules, judged
      against the directory before the run and the directory now. */
  ghost predicate StepsLogged(d0: Disk, runs: nat -> ThumbRun, cands: seq<Image>, d: Disk, steps: seq<Step>) {
    && |steps| <= |cands|
    && (forall i :: 0 <= i < |steps| ==> StepFollowsRules(cands[i], steps[i], runs(cands[i].id), d0, d))
  }

  /** Exactly the rows of generated candidates carry their thumbnail. */
  ghost predicate RowsRecorded(t0: Table<Image>, runs: nat -> ThumbRun, cands: seq<Image>,
                               t: Table<Image>, steps: seq<Step>) {
    && t.nextId == t0.nextId && t.rows.Keys == t0.rows.Keys
    && (forall k :: k in t0.rows ==>
          t.rows[k] == (if k in GeneratedIds(cands, steps) then Thumbed(t0.rows[k], runs(k)) else t0.rows[k]))
  }

  /** The directory only gained thumbnails. */
  ghost predicate OnlyThumbnailsAdded(d0: Disk, d: Disk) {
    && d.dirs == d0.dirs && d0.files <= d.files
    && (forall p :: p in d.files && p !in d0.files ==> p.AtRoot? && StartsWith(p.name, "thumb_"))
  }

  /** The state the loop keeps after `|steps|` candidates. */
  ghost predicate Progress(t0: Table<Image>, d0: Disk, runs: nat -> ThumbRun, cands: seq<Image>,
                           t: Table<Image>, d: Disk, steps: seq<Step>) {
    && StepsLogged(d0, runs, cands, d, steps)
    && RowsRecorded(t0, runs, cands, t, steps)
    && OnlyThumbnailsAdded(d0, d)
    && (forall uid :: ImageModel.Billed(t, uid) == ImageModel.Billed(t0, uid))
  }

  /** Adding one step to the log adds its id to the generated ones, if it was
      generated. */
  lemma GeneratedIdsStep(cands: seq<Image>, steps: seq<Step>, s: Step)
    requires |steps| < |cands|
    ensures GeneratedIds(cands, steps + [s])
            == GeneratedIds(cands, steps) + (if s == Generated then {cands[|steps|].id} else {})
  {
    var steps' := steps + [s];
    forall k | k in GeneratedIds(cands, steps')
      ensures k in GeneratedIds(cands, steps) + (if s == Generated then {cands[|steps|].id} else {})
    {
      var i :| 0 <= i < |steps'| && i < |cands| && steps'[i] == Generated && cands[i].id == k;
      if i < |steps| { assert steps[i] == Generated; }
    }
    forall k | k in GeneratedIds(cands, steps)
      ensures k in GeneratedIds(cands, steps')
    {
      var i :| 0 <= i < |steps| && i < |cands| && steps[i] == Generated && cands[i].id == k;
      assert steps'[i] == Generated;
    }
    if s == Generated {
      assert steps'[|steps|] == Generated;
    }
  }

  lemma StepsLoggedStep(d0: Disk, runs: nat -> ThumbRun, cands: seq<Image>, d: Disk, steps: seq<Step>,
                        s: Step, d': Disk)
    requires StepsLogged(d0, runs, cands, d, steps) && |steps| < |cands|
    requires d0.files <= d.files <= d'.files
    requires StepFollowsRules(cands[|steps|], s, runs(cands[|steps|].id), d, d')
    ensures StepsLogged(d0, runs, cands, d', steps + [s])
  {
    var steps' := steps + [s];
    forall i | 0 <= i < |steps'|
      ensures StepFollowsRules(cands[i], steps'[i], runs(cands[i].id), d0, d')
    {
      if i < |steps| {
        assert StepFollowsRules(cands[i], steps[i], runs(cands[i].id), d0, d);
      }
    }
  }

  lemma RowsRecordedStep(t0: Table<Image>, runs: nat -> ThumbRun, cands: seq<Image>,
                         t: Table<Image>, steps: seq<Step>, s: Step, t': Table<Image>)
    requires RowsRecorded(t0, runs, cands, t, steps) && |steps| < |cands|
    requires s != Generated ==> t' == t
    requires s == Generated ==>
               var img := cands[|steps|];
               var th := Thumbed(img, runs(img.id));
               t' == ImageModel.UpdateThumbnail(t, img.id, th.thumbnailFilename, th.thumbnailUrl).table
    ensures RowsRecorded(t0, runs, cands, t', steps + [s])
  {
    GeneratedIdsStep(cands, steps, s);
  }

  /** One attempt keeps the loop's state. */
  lemma ProgressStep(t0: Table<Image>, d0: Disk, runs: nat -> ThumbRun, cands: seq<Image>,
                     t: Table<Image>, d: Disk, steps: seq<Step>)
    requires Progress(t0, d0, runs, cands, t, d, steps) && |steps| < |cands|
    ensures var img := cands[|steps|];
            var a := Attempt(img, runs(img.id), t, d);
            Progress(t0, d0, runs, cands, a.1, a.2, steps + [a.0])
  {
    var img := cands[|steps|];
    var run := runs(img.id);
    var a := Attempt(img, run, t, d);
    StepsLoggedStep(d0, runs, cands, d, steps, a.0, a.2);
    RowsRecordedStep(t0, runs, cands, t, steps, a.0, a.1);
    forall uid ensures ImageModel.Billed(a.1, uid) == ImageModel.Billed(t0, uid) {
      ImageModel.BilledAfterUpdateThumbnail(t, img.id, Thumbed(img, run).thumbnailFilename,
                                            Thumbed(img, run).thumbnailUrl, uid);
    }
  }

  /** `generateThumbnailsForExistingImages`: every candidate is attempted in
      turn, whatever became of the ones before it. Only the thumbnail columns of
      generated candidates change, nobody's image sizes change, and the only
      new files are thumbnails. */
  method Backfill(t0: Table<Image>, d0: Disk, runs: nat -> ThumbRun)
    returns (t: Table<Image>, d: Disk, steps: seq<Step>)
    ensures |steps| == |Candidates(t0)|
    ensures forall i :: 0 <= i < |steps| ==>
              StepFollowsRules(Candidates(t0)[i], steps[i], runs(Candidates(t0)[i].id), d0, d)
    ensures t.nextId == t0.nextId && t.rows.Keys == t0.rows.Keys
    ensures forall k :: k in t0.rows ==>
              t.rows[k] == (if k in GeneratedIds(Candidates(t0), steps) then Thumbed(t0.rows[k], runs(k))
                            else t0.rows[k])
    ensures forall k :: k in t0.rows ==>
              (NeedsThumbnail(t.rows[k]) <==> NeedsThumbnail(t0.rows[k]) && k !in GeneratedIds(Candidates(t0), steps))
    ensures d.dirs == d0.dirs && d0.files <= d.files
    ensures forall p :: p in d.files && p !in d0.files ==> p.AtRoot? && StartsWith(p.name, "thumb_")
    ensures forall uid :: ImageModel.Billed(t, uid) == ImageModel.Billed(t0, uid)
  {
    var cands := Candidates(t0);
    t, d, steps := t0, d0, [];
    assert GeneratedIds(cands, steps) == {};
    while |steps| < |cands|
      invariant Progress(t0, d0, runs, cands, t, d, steps)
      decreases |cands| - |steps|
    {
      var img := cands[|steps|];
      ProgressStep(t0, d0, runs, cands, t, d, steps);
      var a := Attempt(img, runs(img.id), t, d);
      t, d, steps := a.1, a.2, steps + [a.0];
    }
    forall k | k in t0.rows
      ensures NeedsThumbnail(t.rows[k]) <==> NeedsThumbnail(t0.rows[k]) && k !in GeneratedIds(cands, steps)
    {
      if k in GeneratedIds(cands, steps) {
        assert |t.rows[k].thumbnailFilename| > 0;
      }
    }
  }
}
