/** The image processing service: which formats it supports, how a stored file
    is named and whether it is converted, the thumbnail and preview names, the
    database paths, the summed size, and the state changes of
    `processAndSaveImage` on the upload directory. Pixel work (sharp) is an
    oracle that says which steps succeed and what sizes it reports. */
module ImageProcessing {
  import opened Wrappers
  import opened Text
  import opened Disk

  /** A file as the upload middleware hands it over. */
  datatype UploadedFile = UploadedFile(originalName: string, mimetype: string, size: nat, tempPath: string)

  // ---------------------------------------------------------------------------
  // Supported formats
  // ---------------------------------------------------------------------------

  const SupportedFormats: seq<string> :=
    ["image/jpeg", "image/jpg", "image/png", "image/gif", "image/webp", "image/bmp", "image/tiff"]

  /** `isSupportedImageFormat`: membership of the lower-cased mimetype. Only
      `image/` types pass, and AVIF, which uploads convert, is not one of
      them. */
  function IsSupportedImageFormat(mimetype: string): (r: bool)
    ensures r ==> StartsWith(Lower(mimetype), "image/")
    ensures r ==> Lower(mimetype) != AvifMimetype
  {
    Lower(mimetype) in SupportedFormats
  }

  /** Case does not matter. */
  lemma SupportedFormatsCaseInsensitive(mimetype: string)
    ensures IsSupportedImageFormat(mimetype) <==> IsSupportedImageFormat(Lower(mimetype))
  {
    LowerIdempotent(mimetype);
  }

  // ---------------------------------------------------------------------------
  // Names and conversion
  // ---------------------------------------------------------------------------

  /** Extensions that are stored as uploaded. */
  const ServableExtensions: seq<string> := [".jpeg", ".jpg", ".png", ".webp"]

  const AvifMimetype: string := "image/avif"
  const ConvertedExtension: string := ".jpg"
  const ConvertedMimetype: string := "image/jpeg"

  /** The image is re-encoded as JPEG when it is AVIF or its extension, lower
      cased, is not one of the servable ones. */
  function NeedsConversion(originalName: string, mimetype: string): (r: bool)
    ensures mimetype == AvifMimetype ==> r
    ensures ExtName(originalName) == "" ==> r
  {
    mimetype == AvifMimetype || Lower(ExtName(originalName)) !in ServableExtensions
  }

  /** The extension the stored original carries: always one that is served
      as uploaded. */
  function StoredExtension(originalName: string, mimetype: string): (r: string)
    ensures Lower(r) in ServableExtensions
  {
    assert Lower(ConvertedExtension) == ConvertedExtension;
    if NeedsConversion(originalName, mimetype) then ConvertedExtension else ExtName(originalName)
  }

  /** `<basename without extension>-<suffix>`; the suffix is the
      `Date.now()`-and-random text the service draws. */
  function StoredStem(originalName: string, suffix: string): string {
    BaseName(originalName, ExtName(originalName)) + "-" + suffix
  }

  /** The stem followed by the stored extension. */
  function StoredName(originalName: string, mimetype: string, suffix: string): string {
    StoredStem(originalName, suffix) + StoredExtension(originalName, mimetype)
  }

  /** The mimetype recorded for the stored original: a converted file is
      recorded as JPEG and stored with the JPEG extension, any other keeps the
      uploaded mimetype. */
  function StoredMimetype(originalName: string, mimetype: string): (r: string)
    ensures NeedsConversion(originalName, mimetype) ==>
              r == ConvertedMimetype && StoredExtension(originalName, mimetype) == ConvertedExtension
    ensures !NeedsConversion(originalName, mimetype) ==> r == mimetype
  {
    if NeedsConversion(originalName, mimetype) then ConvertedMimetype else mimetype
  }

  /** `thumb-` + the stored name, which reads back off it. */
  function ThumbnailName(storedName: string): (r: string)
    ensures StartsWith(r, "thumb-") && r[6..] == storedName
  {
    "thumb-" + storedName
  }

  /** `preview-` + the name up to its last '.' + `.webp` (JavaScript's
      `substring(0, -1)` is empty, so a dot-free name keeps nothing). */
  function PreviewName(storedName: string): (r: string)
    ensures StartsWith(r, "preview-") && EndsWith(r, ".webp")
    ensures |r| <= |storedName| + 13
  {
    var k := LastIndexOf(storedName, '.');
    "preview-" + (if k < 0 then "" else storedName[..k]) + ".webp"
  }

  /** The stored extension is '.' followed by dot-free text. */
  lemma StoredExtensionShape(originalName: string, mimetype: string)
    ensures var ext := StoredExtension(originalName, mimetype);
            |ext| > 0 && ext[0] == '.' && '.' !in ext[1..] && Lower(ext) in ServableExtensions
  {
    ExtNameIsSuffix(originalName);
    if !NeedsConversion(originalName, mimetype) {
      assert ExtName(originalName) != "" by { assert Lower("") == ""; }
    } else {
      assert Lower(".jpg") == ".jpg";
    }
  }

  /** The stored name keeps the original base name, ends in the stored
      extension, and that extension is always one a browser can be served. */
  lemma StoredNameShape(originalName: string, mimetype: string, suffix: string)
    ensures var stored := StoredName(originalName, mimetype, suffix);
            var base := BaseName(originalName, ExtName(originalName));
            var ext := StoredExtension(originalName, mimetype);
            && ExtName(stored) == ext
            && BaseName(stored, ext) == base + "-" + suffix
            && Lower(ext) in ServableExtensions
            && (NeedsConversion(originalName, mimetype) ==> ext == ".jpg")
            && (!NeedsConversion(originalName, mimetype) ==> base + ext == originalName)
  {
    var ext := StoredExtension(originalName, mimetype);
    var base := BaseName(originalName, ExtName(originalName));
    StoredExtensionShape(originalName, mimetype);
    BaseNamePlusExtName(originalName);
    var stem := StoredStem(originalName, suffix);
    assert stem[|base|] == '-';
    ExtNameOfSuffixed(stem, ext);
  }

  /** The preview of `stem + ext` is named `preview-<stem>.webp`. */
  lemma PreviewNameOfSuffixed(stem: string, ext: string)
    requires |ext| > 0 && ext[0] == '.' && '.' !in ext[1..]
    ensures PreviewName(stem + ext) == "preview-" + stem + ".webp"
    ensures ExtName(PreviewName(stem + ext)) == ".webp"
  {
    LastDotOfSuffixed(stem, ext);
    var p := "preview-" + stem;
    assert p[0] == 'p';
    ExtNameOfSuffixed(p, ".webp");
  }

  /** The preview is named after the stored name without its extension. */
  lemma PreviewNameShape(originalName: string, mimetype: string, suffix: string)
    ensures PreviewName(StoredName(originalName, mimetype, suffix))
         == "preview-" + StoredStem(originalName, suffix) + ".webp"
    ensures ExtName(PreviewName(StoredName(originalName, mimetype, suffix))) == ".webp"
  {
    StoredExtensionShape(originalName, mimetype);
    PreviewNameOfSuffixed(StoredStem(originalName, suffix), StoredExtension(originalName, mimetype));
  }

  /** `path.join('uploads', folderId, name)` with every backslash turned into
      '/'. */
  function DbPath(folderId: nat, name: string): (r: string)
    ensures '\\' !in r
  {
    ReplaceAllRemoves("uploads/" + NatToString(folderId) + "/" + name, '\\', '/');
    ReplaceAll("uploads/" + NatToString(folderId) + "/" + name, '\\', '/')
  }

  /** A database path names the folder's directory, never holds a backslash,
      and keeps a backslash-free name as it is. */
  lemma DbPathShape(folderId: nat, name: string)
    ensures var prefix := "uploads/" + NatToString(folderId) + "/";
            var r := DbPath(folderId, name);
            && '\\' !in r
            && StartsWith(r, prefix)
            && |r| == |prefix| + |name|
            && ('\\' !in name ==> r == prefix + name)
  {
    var digits := NatToString(folderId);
    var prefix := "uploads/" + digits + "/";
    assert '\\' !in prefix by {
      assert forall i :: 0 <= i < |digits| ==> IsDigit(digits[i]);
      assert '\\' !in "uploads/" && '\\' !in digits && '\\' !in "/";
    }
    ReplaceAllAppend(prefix, name, '\\', '/');
    ReplaceAllRemoves(prefix, '\\', '/');
    ReplaceAllRemoves(name, '\\', '/');
    var rest := ReplaceAll(name, '\\', '/');
    assert (prefix + rest)[..|prefix|] == prefix;
  }

  // ---------------------------------------------------------------------------
  // Sizes
  // ---------------------------------------------------------------------------

  /** What sharp's `metadata()` and `fs.stat` report for a file: `None` when
      the call throws; a metadata size of 0 stands for a missing size. */
  datatype SizeProbe = SizeProbe(metadata: Option<nat>, stat: Option<nat>)

  /** The original's size: the metadata size, else the `fs.stat` size; either
      call throwing fails the whole processing. */
  function OriginalSize(p: SizeProbe): Option<nat> {
    match p.metadata
    case None => None
    case Some(m) => if m > 0 then Some(m) else p.stat
  }

  /** A thumbnail's or preview's size: the metadata size, else the `fs.stat`
      size, else nothing at all. */
  function RenditionSize(p: SizeProbe): (r: nat)
    ensures r == 0 || (p.metadata.Some? && r == p.metadata.value) || (p.stat.Some? && r == p.stat.value)
    ensures (p.metadata.None? || p.metadata.value == 0) && p.stat.Some? ==> r == p.stat.value
    ensures p.stat.None? && (p.metadata.None? || p.metadata.value == 0) ==> r == 0
    ensures p.metadata.Some? && p.metadata.value > 0 ==> r == p.metadata.value
  {
    if p.metadata.Some? && p.metadata.value > 0 then p.metadata.value
    else if p.stat.Some? then p.stat.value
    else 0
  }

  // ---------------------------------------------------------------------------
  // processAndSaveImage
  // ---------------------------------------------------------------------------

  /** What the foreign calls do for one file: whether the original could be
      placed (converted or renamed), the size reports, and whether the
      thumbnail and preview could be written. */
  datatype SharpRun = SharpRun(
    placed: bool,
    original: SizeProbe,
    thumbnailWritten: bool,
    thumbnail: SizeProbe,
    previewWritten: bool,
    preview: SizeProbe)

  /** The object `processAndSaveImage` resolves with. */
  datatype Processed = Processed(
    filename: string,
    path: string,
    size: nat,
    mimeType: string,
    thumbnailFilename: string,
    thumbnailPath: string,
    previewFilename: string,
    previewPath: string)

  /** The result (`None` when the call rejects) and the upload directory after. */
  datatype Processing = Processing(result: Option<Processed>, disk: Disk)

  /** Does every step succeed? */
  predicate Succeeds(file: UploadedFile, run: SharpRun, d: Disk) {
    Temp(file.tempPath) in d.files && SharpWorks(run)
  }

  /** Do sharp and fs carry out every step (placing, sizing, both renditions)? */
  predicate SharpWorks(run: SharpRun) {
    && run.placed && OriginalSize(run.original).Some?
    && run.thumbnailWritten && run.previewWritten
  }

  function ProcessAndSaveImage(file: UploadedFile, folderId: nat, suffix: string, run: SharpRun, d: Disk)
    : (o: Processing)
    ensures o.disk.dirs == d.dirs + {folderId}
    ensures o.result.Some? <==> Succeeds(file, run, d)
    ensures o.result.Some? ==>
              var p := o.result.value;
              && p.filename == StoredName(file.originalName, file.mimetype, suffix)
              && p.mimeType == StoredMimetype(file.originalName, file.mimetype)
              && p.thumbnailFilename == ThumbnailName(p.filename)
              && p.previewFilename == PreviewName(p.filename)
              && p.path == DbPath(folderId, p.filename)
              && p.thumbnailPath == DbPath(folderId, p.thumbnailFilename)
              && p.previewPath == DbPath(folderId, p.previewFilename)
              && p.size == OriginalSize(run.original).value + RenditionSize(run.thumbnail) + RenditionSize(run.preview)
              && o.disk.files == d.files - {Temp(file.tempPath)}
                   + {InFolder(folderId, p.filename), InFolder(folderId, p.thumbnailFilename),
                      InFolder(folderId, p.previewFilename)}
    ensures o.result.None? && !(Temp(file.tempPath) in d.files && run.placed) ==> o.disk.files == d.files
    ensures o.result.None? && Temp(file.tempPath) in d.files && run.placed ==>
              var stored := StoredName(file.originalName, file.mimetype, suffix);
              o.disk.files == d.files - {Temp(file.tempPath), InFolder(folderId, stored)}
                + (if OriginalSize(run.original).Some? && run.thumbnailWritten
                   then {InFolder(folderId, ThumbnailName(stored))} else {})
  {
    SaveAs(file, folderId, StoredName(file.originalName, file.mimetype, suffix),
           StoredMimetype(file.originalName, file.mimetype), run, d)
  }

  /** The file operations of `processAndSaveImage` once the stored name and
      mimetype are chosen: the folder's directory is created, the original is
      placed (or nothing happens when the temporary file is gone or sharp
      fails on it), and the renditions follow. */
  function SaveAs(file: UploadedFile, folderId: nat, name: string, mimetype: string, run: SharpRun, d: Disk)
    : (o: Processing)
    ensures o.disk.dirs == d.dirs + {folderId}
    ensures o.result.Some? <==> Succeeds(file, run, d)
    ensures o.result.Some? ==>
              var p := o.result.value;
              && p.filename == name
              && p.mimeType == mimetype
              && p.thumbnailFilename == ThumbnailName(name)
              && p.previewFilename == PreviewName(name)
              && p.path == DbPath(folderId, name)
              && p.thumbnailPath == DbPath(folderId, p.thumbnailFilename)
              && p.previewPath == DbPath(folderId, p.previewFilename)
              && p.size == OriginalSize(run.original).value + RenditionSize(run.thumbnail) + RenditionSize(run.preview)
              && o.disk.files == d.files - {Temp(file.tempPath)}
                   + {InFolder(folderId, name), InFolder(folderId, ThumbnailName(name)),
                      InFolder(folderId, PreviewName(name))}
    ensures o.result.None? && !(Temp(file.tempPath) in d.files && run.placed) ==> o.disk.files == d.files
    ensures o.result.None? && Temp(file.tempPath) in d.files && run.placed ==>
              o.disk.files == d.files - {Temp(file.tempPath), InFolder(folderId, name)}
                + (if OriginalSize(run.original).Some? && run.thumbnailWritten
                   then {InFolder(folderId, ThumbnailName(name))} else {})
  {
    var d1 := d.(dirs := d.dirs + {folderId});
    if Temp(file.tempPath) !in d1.files || !run.placed then Processing(None, d1)
    else
      // The converted copy is written and the temporary file removed, or the
      // temporary file is renamed: either way it ends up at `original`.
      var d2 := Put(Unlink(d1, Temp(file.tempPath)), InFolder(folderId, name));
      assert d2.files == d.files - {Temp(file.tempPath)} + {InFolder(folderId, name)};
      Render(folderId, name, mimetype, run, d2)
  }

  /** The steps after the original was placed as `name` in the folder's
      directory: its size, then the thumbnail, then the preview. A failure
      unlinks the original and nothing else, so a thumbnail already written
      stays; success adds the two renditions. */
  function Render(folderId: nat, name: string, mimetype: string, run: SharpRun, d2: Disk): (o: Processing)
    ensures o.disk.dirs == d2.dirs
    ensures o.result.Some? <==> OriginalSize(run.original).Some? && run.thumbnailWritten && run.previewWritten
    ensures o.result.Some? ==>
              var p := o.result.value;
              && p.filename == name
              && p.mimeType == mimetype
              && p.thumbnailFilename == ThumbnailName(name)
              && p.previewFilename == PreviewName(name)
              && p.path == DbPath(folderId, name)
              && p.thumbnailPath == DbPath(folderId, p.thumbnailFilename)
              && p.previewPath == DbPath(folderId, p.previewFilename)
              && p.size == OriginalSize(run.original).value + RenditionSize(run.thumbnail) + RenditionSize(run.preview)
              && o.disk.files == d2.files + {InFolder(folderId, ThumbnailName(name)), InFolder(folderId, PreviewName(name))}
    ensures o.result.None? ==>
              o.disk.files == d2.files - {InFolder(folderId, name)}
                + (if OriginalSize(run.original).Some? && run.thumbnailWritten
                   then {InFolder(folderId, ThumbnailName(name))} else {})
  {
    var original := InFolder(folderId, name);
    match OriginalSize(run.original)
    case None => Processing(None, Unlink(d2, original))
    case Some(originalSize) =>
      var thumb := ThumbnailName(name);
      var preview := PreviewName(name);
      if !run.thumbnailWritten then Processing(None, Unlink(d2, original))
      else
        var d3 := Put(d2, InFolder(folderId, thumb));
        if !run.previewWritten then Processing(None, Unlink(d3, original))
        else
          var size := originalSize + RenditionSize(run.thumbnail) + RenditionSize(run.preview);
          Processing(Some(Processed(name, DbPath(folderId, name), size, mimetype,
                                    thumb, DbPath(folderId, thumb),
                                    preview, DbPath(folderId, preview))),
                     Put(d3, InFolder(folderId, preview)))
  }

  /** A successful processing moves the upload's temporary file away and
      touches no other temporary file. */
  lemma ProcessingMovesTemp(file: UploadedFile, folderId: nat, suffix: string, run: SharpRun, d: Disk)
    ensures var o := ProcessAndSaveImage(file, folderId, suffix, run, d);
            o.result.Some? ==>
              forall path :: Temp(path) in o.disk.files <==> Temp(path) in d.files && path != file.tempPath
  {
    SavedMovesTemp(file, folderId, StoredName(file.originalName, file.mimetype, suffix),
                   StoredMimetype(file.originalName, file.mimetype), run, d);
  }

  lemma SavedMovesTemp(file: UploadedFile, folderId: nat, name: string, mimetype: string, run: SharpRun, d: Disk)
    ensures var o := SaveAs(file, folderId, name, mimetype, run, d);
            o.result.Some? ==>
              forall path :: Temp(path) in o.disk.files <==> Temp(path) in d.files && path != file.tempPath
  {
  }

  /** A failure after the original was placed removes the original but not a
      thumbnail that was already written: when only the preview fails, the
      thumbnail stays behind in the folder's directory. */
  lemma PreviewFailureLeavesThumbnail(file: UploadedFile, folderId: nat, suffix: string, run: SharpRun, d: Disk)
    requires Temp(file.tempPath) in d.files && run.placed && OriginalSize(run.original).Some?
    requires run.thumbnailWritten && !run.previewWritten
    ensures var o := ProcessAndSaveImage(file, folderId, suffix, run, d);
            var stored := StoredName(file.originalName, file.mimetype, suffix);
            && o.result.None?
            && InFolder(folderId, stored) !in o.disk.files
            && InFolder(folderId, ThumbnailName(stored)) in o.disk.files
  {
    var stored := StoredName(file.originalName, file.mimetype, suffix);
    assert InFolder(folderId, ThumbnailName(stored)) != InFolder(folderId, stored) by {
      assert |ThumbnailName(stored)| > |stored|;
    }
  }
}
