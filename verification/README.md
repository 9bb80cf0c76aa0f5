# Imparadise backend, modelled in Dafny

Imparadise is an image-hosting service. Users register (the first one becomes
the administrator), create folders that are private or public, and upload
images into them. Each upload is stored with a thumbnail and a preview, billed
against a per-user storage quota, and can later be deleted or downloaded in
bulk as a zip archive. Around this core sit several smaller pieces:

- a request middleware layer: file-type and size filters, the role gate, and optional bearer-token authentication;
- account handlers: register, login, profile, password and profile picture;
- a migration runner;
- a script that backfills thumbnails for legacy images;
- the frontend's site-settings URL rewrite.

This project models those pieces as pure functions over an immutable state:

- `Records`, `Tables`: the `users`, `folders` and `images` tables as maps from
  id to row, with the next id the database would assign. The empty string
  stands for a NULL text column.
- `Disk`: the upload directory as a set of file paths, with one entry per
  folder directory.
- `UserModel`, `ImageModel`, `FolderModel`: the SQL models. Each write changes
  only the columns its statement names.
- `ImageProcessing`: the stored-name derivation, format normalisation, database
  paths and size summation of `processAndSaveImage`.
- `ImageController`: `uploadImage`, `getImagesInFolder`, `deleteImage` and
  `downloadBulkImages` as state transitions answering with a status code.
- `Ledger`: the storage ledger. For every user, `storage_used` minus its
  starting value is the sum of the sizes of that user's image records.
  Completed uploads, refusals, deletions, thumbnail backfills and limit
  changes preserve it; an upload that fails midway breaks it.
- `Access`, `FolderController`: the ownership, administrator and visibility
  rules.
- `Middleware`: the multer filters and limits, `handleUpload`, `authorizeRole`
  and `optionalAuth`.
- `Accounts`: `authController` and `userController`.
- `Migrations`: `migrate`.
- `ThumbnailBackfill`: `generateThumbnailsForExistingImages`, together with the
  service's standalone `generateThumbnail`, `generatePreview` and
  `cleanupThumbnail`.
- `SiteSettings`: the defaults and `processSettings` of `SettingsContext`.
- `Text`, `Sorting`, `Wrappers`: string helpers (lower-casing,
  `split`, `path.extname`/`basename`, decimal rendering, the default string
  order) and an insertion sort.

Foreign calls become inputs. Each of the following is an oracle parameter
saying what the call did:

- sharp: whether each file was written, and the sizes its metadata reports;
- `fs.stat`;
- uuid, `Date.now`/`Math.random` suffixes and the clock;
- bcrypt's comparison;
- `jwt.verify`;
- the outcome of each migration's SQL;
- the directory listing.

## Model

| member | source | states |
|---|---|---|
| Disk.Unlink | backend/controllers/imageController.js:163-172 | deleting a file removes exactly that path; a missing file is no error and changes nothing else |
| FolderModel.Create | backend/models/Folder.js:4-11 | the new folder takes the next id, is public only when `true` was given, and every existing row is kept |
| FolderModel.FindByUserId | backend/models/Folder.js:13-16 | exactly the folders whose owner is the given user, each listed once |
| FolderModel.FindAllPublic | backend/models/Folder.js:23-26 | exactly the public folders, each listed once |
| FolderModel.Update | backend/models/Folder.js:28-34 | only the name and visibility of the given folder change; other rows and the key set stay |
| FolderModel.Delete | backend/models/Folder.js:36-38 | only the given folder disappears |
| FolderController.CreateFolder | backend/controllers/folderController.js:3-13 | 201 with a fresh folder owned by the requester, under an id not used before |
| FolderController.GetFolders | backend/controllers/folderController.js:15-24 | the requester sees all and only their own folders, each once |
| FolderController.GetPublicFolders | backend/controllers/folderController.js:26-33 | all and only the public folders, each once |
| FolderController.UpdateFolder | backend/controllers/folderController.js:35-55 | 404 iff missing, 403 iff present and the caller is neither owner nor administrator, otherwise 200 with name and visibility set and nothing else changed; refusals change nothing |
| FolderController.DeleteFolder | backend/controllers/folderController.js:57-76 | the same 404/403 split; on success exactly that folder is removed |
| FolderController.GetFolderById | backend/controllers/folderController.js:78-99 | 404 iff missing; 200 with the row iff the folder is public or the caller owns it or is administrator; 403 otherwise; never writes |
| FolderController.ReadableFolders | backend/controllers/folderController.js:78-99 | anonymous callers read exactly the public folders; owners and administrators read any; others read only public ones |
| FolderController.ManagersCanRead | backend/controllers/folderController.js:35-99 | whoever may update or delete a folder may also read it |
| FolderController.UpdateThenRead | backend/controllers/folderController.js:35-55 | after a successful update, reading the folder back shows the new name and visibility and the original owner |
| FolderController.DeleteThenRead | backend/controllers/folderController.js:57-76 | after a successful delete, every caller gets 404 for that id |
| Access.CanManageFolder | backend/controllers/folderController.js:46 | administrators manage every folder; anyone else exactly the folders they own |
| Access.CanManageImage | backend/controllers/imageController.js:156 | administrators manage every image; anyone else exactly the images they uploaded |
| Access.CanViewFolder | backend/controllers/folderController.js:88-91 | anonymous callers see exactly the public folders; public folders are visible to all; a private folder only to its owner and administrators |
| UserModel.FindByUsername | backend/models/User.js:4-7 | a found row is in the table with that username; nothing is found iff no row has it |
| UserModel.FindByEmail | backend/models/User.js:9-12 | a found row is in the table with that email; nothing is found iff no row has it |
| UserModel.FindAll | backend/models/User.js:32-35 | every row appears as its listing, and every listing comes from a row; no row is listed twice |
| UserModel.FindAllIgnoresHashes | backend/models/User.js:32-35 | the listing cannot reveal a password hash: tables differing only in hashes list identically |
| UserModel.Create | backend/models/User.js:19-25 | the new row takes the next id, role `user` unless one is given, the default quota of 5368709120 bytes (5 GiB), nothing used, no picture; the count grows by one; old rows are kept |
| UserModel.UpdateRole | backend/models/User.js:37-43 | only the role (and `updated_at`) of that row change; an absent id returns nothing |
| UserModel.Delete | backend/models/User.js:45-48 | the removed row is returned, or nothing for an absent id; the count drops by exactly one or zero |
| UserModel.UpdateStorageUsed | backend/models/User.js:50-56 | `storage_used` moves by the signed delta, unclamped, and no other column or row changes |
| UserModel.UpdateStorageUsedComposes | backend/models/User.js:50-56 | two increments equal one increment by their sum |
| UserModel.UpdateStorageUsedInverse | backend/models/User.js:50-56 | adding a delta and then its negation restores the table |
| UserModel.UpdateStorageLimit | backend/models/User.js:58-64 | only `storage_limit` changes; `storage_used` keeps its value |
| UserModel.UpdateProfile | backend/models/User.js:66-72 | only username, email and `updated_at` change; the returned profile row has no hash |
| UserModel.UpdatePassword | backend/models/User.js:74-80 | only the hash and `updated_at` change; the id is returned |
| UserModel.UpdateProfilePicture | backend/models/User.js:82-88 | only the picture URL and `updated_at` change; id and URL are returned |
| ImageModel.Create | backend/models/Image.js:4-11 | the stored row echoes all eleven inputs under the next id, with `created_at` set by the column default (the clock); the table gains exactly that row and every other row is unchanged |
| ImageModel.UpdateThumbnail | backend/models/Image.js:13-19 | only the thumbnail name and URL of that record change |
| ImageModel.Delete | backend/models/Image.js:38-40 | only the given record is removed |
| ImageModel.NewestFirstOrders | backend/models/Image.js:21-31 | `created_at DESC` is a total preorder, so the sort is well defined |
| ImageModel.FindByFolderId | backend/models/Image.js:21-31 | with no folder, all records; otherwise exactly that folder's records; each record once, newest first either way |
| ImageModel.FindByIds | backend/models/Image.js:42-49 | no list or an empty list gives nothing; otherwise exactly the records whose id is listed, each once however often its id is listed |
| ImageModel.BilledAfterCreate | backend/models/Image.js:4-11 | a new record adds its size to its uploader's billed total and nothing to anyone else's |
| ImageModel.BilledAfterDelete | backend/models/Image.js:38-40 | removing a record takes exactly its size off its uploader's billed total |
| ImageModel.BilledAfterUpdateThumbnail | backend/models/Image.js:13-19 | a thumbnail update changes nobody's billed total |
| ImageModel.BilledAfterAppend | backend/models/Image.js:4-11 | records appended one after another add their sizes to their owners' totals |
| ImageProcessing.SupportedFormatsCaseInsensitive | backend/services/imageProcessingService.js:47-58 | support does not depend on the mimetype's case |
| ImageProcessing.IsSupportedImageFormat | backend/services/imageProcessingService.js:47-58 | only `image/` types are supported, and AVIF is not among them |
| ImageProcessing.NeedsConversion | backend/services/imageProcessingService.js:114-118 | AVIF uploads and names without an extension are always converted |
| ImageProcessing.StoredExtension | backend/services/imageProcessingService.js:111-120 | the stored extension, lower-cased, is always one of .jpeg, .jpg, .png, .webp |
| ImageProcessing.StoredMimetype | backend/services/imageProcessingService.js:182 | a converted file is recorded as `image/jpeg` and stored with `.jpg`; any other keeps the uploaded mimetype |
| ImageProcessing.ThumbnailName | backend/services/imageProcessingService.js:139 | `thumb-` followed by the stored name, which reads back off it |
| ImageProcessing.PreviewName | backend/services/imageProcessingService.js:145 | starts with `preview-`, ends with `.webp`, and is at most 13 characters longer than the stored name |
| ImageProcessing.DbPath | backend/services/imageProcessingService.js:176 | a database path never holds a backslash |
| Text.ExtName | backend/services/imageProcessingService.js:111 | an extension is empty or a '.' followed by dot-free text; a name without a dot has none |
| Text.ExtNameIsSuffix | backend/services/imageProcessingService.js:111 | the extension is a suffix of the name, shorter than it unless both are empty |
| Text.BaseNameStrips | backend/services/imageProcessingService.js:112 | the base name is a prefix of the name: the name minus the extension when it ends in it and is longer, else the whole name, and empty when the name is the extension |
| Text.BaseNamePlusExtName | backend/services/imageProcessingService.js:111-112 | base name followed by extension gives back the name |
| ImageProcessing.StoredExtensionShape | backend/services/imageProcessingService.js:111-120 | the stored extension is '.' and dot-free text, and lower-cased it is one of .jpeg, .jpg, .png, .webp |
| ImageProcessing.StoredNameShape | backend/services/imageProcessingService.js:110-122 | the stored name splits back into `<basename>-<suffix>` and the stored extension; converted files end in `.jpg`; unconverted ones keep the original name's extension |
| ImageProcessing.PreviewNameOfSuffixed | backend/services/imageProcessingService.js:145 | the preview name drops exactly the last extension and ends in `.webp` |
| ImageProcessing.PreviewNameShape | backend/services/imageProcessingService.js:145 | the preview of a stored name is `preview-<basename>-<suffix>.webp` |
| ImageProcessing.DbPathShape | backend/services/imageProcessingService.js:176 | a database path starts with `uploads/<folderId>/`, holds no backslash, keeps its length, and keeps a backslash-free name unchanged |
| ImageProcessing.RenditionSize | backend/services/imageProcessingService.js:152-174 | a rendition contributes its metadata size when non-zero, else its `fs.stat` size when the stat succeeds, else 0 |
| ImageProcessing.ProcessAndSaveImage | backend/services/imageProcessingService.js:105-193 | succeeds iff the temp file is there and every sharp step works; the result carries the derived names, converted mimetype, forward-slash paths and the three-part size; the temp file is replaced by exactly the three renditions; on failure the original is removed |
| ImageProcessing.PreviewFailureLeavesThumbnail | backend/services/imageProcessingService.js:139-192 | when only the preview fails, the call fails and removes the original but leaves the thumbnail behind |
| ImageProcessing.ProcessingMovesTemp | backend/services/imageProcessingService.js:125-133 | a successful processing removes the upload's own temporary file (the converted copy's unlink, or the rename) and no other temporary file |
| Ledger.ChargeKeepsConsistent | backend/controllers/imageController.js:91 | moving a user's counter by exactly what their records' billed total moved keeps the ledger |
| Ledger.NoChargeKeepsConsistent | backend/scripts/generateThumbnails.js:41 | an image-table change that bills nobody keeps the ledger without touching the counters |
| Ledger.UnchargedRecordsBreakConsistent | backend/controllers/imageController.js:104-118 | records billed without the matching increment break the ledger |
| Ledger.StorageLimitKeepsConsistent | backend/models/User.js:58-64 | changing a quota never disturbs the ledger |
| Ledger.RegistrationKeepsConsistent | backend/controllers/authController.js:12-15 | a new account starts with the default quota and nothing used, and, with every image owned by an existing user, the ledger holds with a starting value of 0 for it |
| ImageController.RemoveTemps | backend/controllers/imageController.js:106-117 | the error clean-up removes exactly the batch's temporary files, tolerating missing ones |
| ImageController.UnlinkEachSucceedsIff | backend/controllers/imageController.js:58-61 | unlinking the batch's files one by one succeeds iff they all exist and are distinct |
| ImageController.RejectOverQuota | backend/controllers/imageController.js:57-63 | whatever the outcome, the over-quota path leaves no temporary file of the batch |
| ImageController.OverQuotaAsWrittenAnswers500 | backend/controllers/imageController.js:1 | with the promise-based `fs` binding, an over-quota batch with files answers 500 |
| ImageController.OverQuotaAnswers413 | backend/controllers/imageController.js:57-63 | with the synchronous binding, it answers 413 iff the temp files are all present and distinct, else 500 |
| ImageController.ProcessFile | backend/controllers/imageController.js:68-89 | one iteration throws exactly when `processAndSaveImage` rejects, that is, when the file's temporary file is missing or a sharp step fails; a throw leaves the table as it was; otherwise the file's record is inserted under the next id, only that file's temporary file is moved away, and every non-temporary file is kept |
| ImageController.RunBatch | backend/controllers/imageController.js:68-89 | the loop inserts one record per file, in input order, and stops exactly at the first file that does not go through (its temporary file is missing or was already consumed by an earlier file, or sharp fails); each record has the upload size, target folder and acting user; the billed total moves by the sum of the processed files' sizes |
| ImageController.BatchBilled | backend/controllers/imageController.js:75-91 | the records of a batch bill the acting user exactly the upload sizes of their files |
| ImageController.OwnedSizeOfRecords | backend/controllers/imageController.js:75-87 | the sizes of a batch's records owned by a user sum to the files' sizes for the actor and to 0 for anyone else |
| ImageController.Screen | backend/controllers/imageController.js:19-47 | the pre-quota refusals in order: 400 for no files or no folder (echoing skipped names when every file was skipped), 404 for a missing folder or user, 403 for a non-owner non-administrator |
| ImageController.StoreBatch | backend/controllers/imageController.js:64-118 | 201 iff every file goes through, which present and distinct temporary files plus working sharp runs guarantee; then one increment by the batch's total; 500 names the first file that failed, leaves the counters unchanged, keeps the records made so far and removes the temp files; 201 keeps the ledger, a partial 500 breaks it |
| ImageController.UploadImage | backend/controllers/imageController.js:13-120 | the status is one of 400/404/403/413/201/500; refusals change nothing; a batch is admitted iff used plus total is at most the quota (equality fits); an over-quota batch answers 413 iff its temporary files are all present and distinct, else 500, with no record and counters unchanged; an admitted batch answers 201 iff every file goes through, else 500 at the first failing file |
| ImageController.GetImagesInFolder | backend/controllers/imageController.js:122-144 | 404/403/200 by the folder visibility rule; on 200 exactly the folder's images, each once, newest first |
| ImageController.RemoveRenditions | backend/controllers/imageController.js:174-192 | exactly the record's present renditions are removed; the folder directory goes iff it is left empty |
| ImageController.DeleteImage | backend/controllers/imageController.js:146-203 | 404 iff unknown, 403 iff neither uploader nor administrator; otherwise renditions removed, uploader's counter reduced by the record's size, record removed; refusals change nothing |
| ImageController.DeleteKeepsLedger | backend/controllers/imageController.js:195-196 | every deletion keeps the storage ledger |
| ImageController.ArchiveEntries | backend/controllers/imageController.js:250-262 | one entry per record with a stored name whose file exists, named by the original filename; records without a file are skipped; never more entries than records |
| ImageController.ArchiveEntriesSingleton | backend/controllers/imageController.js:250-262 | one record yields its single entry when its original is on disk, and nothing otherwise |
| ImageController.ArchiveEntriesAppend | backend/controllers/imageController.js:250-262 | the entries of two record lists one after the other are the entries of each, in order, so each record adds its entry at its own position |
| ImageController.DownloadBulkImages | backend/controllers/imageController.js:205-270 | 400 for missing, non-array or empty ids; 404 when none match; a signed-in caller gets 200 with `images.zip` iff every image is theirs or they are administrator, else 403; an anonymous caller gets 200 with `<folder name>.zip` iff the first image's folder is public and holds all the images, else 403 (not public) or 400 (mixed folders); the entries are those of the matched records, in order (see ArchiveEntriesAppend) |
| Middleware.Screen | backend/middleware/uploadMiddleware.js:7-19 | a file is accepted iff its type is listed and it fits the limit; the type error comes first |
| Middleware.ScreenUpload | backend/middleware/uploadMiddleware.js:3-19 | the upload takes exactly the seven listed types, compared exactly, up to 5 MiB |
| Middleware.SvgPassesUploadFilter | backend/middleware/uploadMiddleware.js:3 | an SVG within the limit passes the upload filter |
| Middleware.SvgIsUnsupported | backend/services/imageProcessingService.js:47-58 | yet the processing service does not support SVG |
| Middleware.FilteredTypesSupported | backend/services/imageProcessingService.js:47-58 | every other type the filter takes is supported by the service |
| Middleware.FilterIsCaseSensitive | backend/middleware/uploadMiddleware.js:7-13 | an upper-case spelling of a supported type is refused by the filter though the service would accept it |
| Middleware.ProfileStoredNameKeepsExtension | backend/middleware/profilePictureUpload.js:22-25 | the stored profile picture name is the uuid followed by the original extension, and both read back off it |
| Middleware.HandleUpload | backend/middleware/profilePictureUpload.js:44-53 | exactly one of "400 with the error message" and "next once"; 400 iff a file has a type outside the four or exceeds 5 MiB; a stored name only when a file passed, and a picture that passed also passes the image upload's type filter |
| Middleware.AuthorizeRole | backend/middleware/roleMiddleware.js:1-7 | exactly one of "403" and "next once"; 403 iff there is no user or its role is not listed |
| Middleware.AuthorizeRoleMonotone | backend/middleware/roleMiddleware.js:3-6 | listing more roles admits at least as many callers; the administrator gate admits exactly administrators |
| Middleware.BearerToken | backend/middleware/optionalAuth.js:4-5 | no header gives no token; a header with a space gives its second space-separated segment; a non-empty header without a space gives none; `Bearer <token>` with a space-free token gives the token |
| Middleware.OptionalAuth | backend/middleware/optionalAuth.js:3-18 | never answers and calls next exactly once; the user is the verified payload of the token, or nobody |
| Accounts.SessionOf | backend/controllers/authController.js:56-70 | the token payload carries exactly the user's id and role |
| Accounts.SessionIgnoresHash | backend/controllers/authController.js:59-70 | the session sent back does not depend on the password hash |
| Accounts.RegisterUser | backend/controllers/authController.js:5-36 | 201; the new row has the given names and hash, no usage and the default quota; the payload is the new id and `admin` iff the table was empty; other rows are kept |
| Accounts.OnlyFirstRegistrationIsAdmin | backend/controllers/authController.js:12-13 | the first registration is the administrator and the next one is a plain user |
| Accounts.RoleForNewUser | backend/controllers/authController.js:12-13 | the new role is `admin` iff the table is empty, else `user` |
| Accounts.FindForLogin | backend/controllers/authController.js:42-45 | an identifier with '@' is matched against emails, otherwise against usernames |
| Accounts.LoginUser | backend/controllers/authController.js:38-74 | 404 iff no user is found, 401 iff the password does not match, 200 iff it does; a session only on 200, issued for the found row |
| Accounts.FindForLoginUnique | backend/controllers/authController.js:42-45 | with unique names, the lookup finds exactly the row holding the identifier |
| Accounts.RegisterThenLogin | backend/controllers/authController.js:5-74 | logging in right after registering succeeds iff the password matches, and yields the registration's session |
| Accounts.GetMe | backend/controllers/authController.js:76-94 | 404 iff the caller's row is gone; otherwise the row's view without the hash |
| Accounts.ProfileIsRowWithoutHash | backend/controllers/userController.js:8-13 | two rows have the same profile iff they differ at most in their hashes |
| Accounts.GetProfile | backend/controllers/userController.js:6-18 | 404 iff the caller's row is gone; otherwise its profile |
| Accounts.UpdateProfile | backend/controllers/userController.js:20-42 | 400 iff the username or the email belongs to another user (one's own are allowed), with nothing written; otherwise the model's update |
| Accounts.UpdateProfileKeepsUnique | backend/controllers/userController.js:26-37 | profile updates keep usernames and emails unique |
| Accounts.ChangePassword | backend/controllers/userController.js:44-68 | 404 iff the row is gone, 400 iff the current password does not match, otherwise the hash is replaced; refusals change nothing |
| Accounts.ChangePasswordThenLogin | backend/controllers/userController.js:44-68 | after a change, logging in with the new password succeeds as the same user |
| Accounts.UploadProfilePicture | backend/controllers/userController.js:70-103 | a missing user (404) is checked before a missing file (400); on 200 the row's picture URL is `/uploads/profile-pictures/<stored name>` and is returned |
| Accounts.ProfilePictureUrl | backend/controllers/userController.js:84-95 | the stored URL starts with '/', and without it, as the handler strips it before resolving an old picture, it is the path the picture was written to |
| ThumbnailBackfill.GenerateThumbnail | backend/services/imageProcessingService.js:18-40 | on success `thumb_<uuid>.jpg` is added directly under the upload directory; on failure nothing changes |
| ThumbnailBackfill.GeneratePreview | backend/services/imageProcessingService.js:78-97 | on success `preview-<uuid>.webp` is added; on failure nothing changes |
| ThumbnailBackfill.StandaloneNamesDistinct | backend/services/imageProcessingService.js:78-81 | standalone thumbnails, standalone previews and upload thumbnails never share a name |
| ThumbnailBackfill.CleanupThumbnail | backend/services/imageProcessingService.js:64-70 | the thumbnail is gone afterwards and nothing else changes; failures are swallowed |
| ThumbnailBackfill.CleanupUndoesGenerate | backend/services/imageProcessingService.js:64-70 | cleaning up a freshly generated thumbnail restores the directory |
| ThumbnailBackfill.Candidates | backend/scripts/generateThumbnails.js:11-12 | exactly the records without a thumbnail, each once |
| ThumbnailBackfill.UploadedImagesAreNotCandidates | backend/scripts/generateThumbnails.js:11-12 | images stored by the upload path already have a thumbnail and are never backfilled |
| ThumbnailBackfill.Attempt | backend/scripts/generateThumbnails.js:18-48 | one image: skipped when its original is missing or its format unsupported, else generated or failed as sharp did; only a generated one changes its row, and only its thumbnail is added |
| ThumbnailBackfill.Backfill | backend/scripts/generateThumbnails.js:11-48 | every candidate gets one step following those rules, a failure never stops the rest; exactly the generated rows get `thumb_<uuid>.jpg` and `http://localhost:5000/uploads/…`; only thumbnails are added to disk; nobody's billed total moves |
| Migrations.LexLeOrders | backend/migrate.js:24 | the default string order is total and transitive, so the sort is well defined |
| Migrations.IsMigrationFile | backend/migrate.js:23 | a name ending in `.sql` has `path.extname` `.sql`, except the bare name `.sql` |
| Migrations.MigrationOrder | backend/migrate.js:22-24 | the candidates are exactly the `.sql` files, each once, sorted |
| Migrations.Migrate | backend/migrate.js:18-43 | the attempted files are the pending ones (`.sql` files not yet recorded) of the sorted listing, as a sequence: in that order and once per listing entry; the committed ones are exactly the successful attempts, in the same order, and are recorded; failures are rolled back and the run goes on |
| Migrations.AttemptedOnce | backend/migrate.js:22-41 | a listing without repeated names gets each pending file attempted, and each successful one committed, exactly once |
| Migrations.SecondRunRetriesFailures | backend/migrate.js:18-41 | a second run attempts exactly the files the first rolled back; after a failure-free run the next one attempts nothing |
| Migrations.RecordedOnlyOnSuccess | backend/migrate.js:27-41 | recorded names are never rerun, and a name is recorded iff it was before or is a migration that succeeded |
| SiteSettings.Defaults | frontend/src/contexts/SettingsContext.js:9-13 | website name `Imparadise`, logo and homepage image null |
| SiteSettings.RewriteValue | frontend/src/contexts/SettingsContext.js:22-23 | throws iff the value is truthy and not a string; a non-empty value starting with '/' gets the backend origin prefixed; any other value stays |
| SiteSettings.RewriteKey | frontend/src/contexts/SettingsContext.js:21-25 | throws iff the key holds a value that throws; otherwise the keys stay, every other key keeps its value, and the key holds its rewritten value |
| SiteSettings.ProcessSettings | frontend/src/contexts/SettingsContext.js:17-28 | succeeds iff neither image value throws; keys are kept, other keys copied, only the two image keys rewritten |
| SiteSettings.RewriteIsPrefixing | frontend/src/contexts/SettingsContext.js:15-23 | a rewritten URL starts with the origin and the original path reads back off it |
| SiteSettings.ProcessSettingsIdempotent | frontend/src/contexts/SettingsContext.js:17-28 | processing processed settings changes nothing |
| SiteSettings.DefaultsAreProcessed | frontend/src/contexts/SettingsContext.js:9-28 | the defaults pass through processing unchanged |
| SiteSettings.FetchSettings | frontend/src/contexts/SettingsContext.js:30-46 | without a usable body, or when processing throws, the settings stay; otherwise they become the processed body |

## Left out

- Pixel work by sharp (resizing, encoding, metadata) is an oracle: whether each file was written, and the sizes reported.
- The filesystem is a set of paths. `access`, `unlink`, `rename`, `mkdir`, `readdir` and `rmdir` act on it; I/O errors other than a missing file are not modelled.
- The archiver/zlib stream is not modelled. The archive is its name and its list of (entry name, source path) pairs.
- bcrypt, JWT signing and verification, uuid, `Date.now`, `Math.random` and the clock are oracle parameters.
- The SQL driver is not modelled. Tables are maps; a query with no `ORDER BY` returns rows in id order. The driver inconsistencies of `Image.js` (mixed placeholders, result shapes) are ignored.
- Database errors are not modelled: constraint violations, the 500 answers they cause, and cascading deletes of folders' images.
- Cross-request concurrency is not modelled: the quota read at imageController.js:44-57 and the increment at line 91 are not atomic, and the model handles one request at a time.
- Middleware.HandleUpload: the request carries at most one file, under the `profilePicture` field. A second file, or a file under another field name, makes multer's `.single('profilePicture')` (profilePictureUpload.js:42) fail with `LIMIT_UNEXPECTED_FILE`, which the handler also answers with 400. The model cannot represent such a request, so this error path is not modelled.
- ImageController.UploadImage: the uploaded files are assumed to have a temporary path. The upload middleware uses multer's memory storage, which gives none, and this wiring is not modelled.
- ImageController.UploadImage uses the corrected, synchronous `fs` binding for the over-quota clean-up (see Findings).
- The skipped-file list (`req.skippedFiles`) is an input; no middleware in the repository fills it.
- Response message strings and JSON shapes are not modelled beyond the status and the fields the contracts name.
- The unlink of a replaced profile picture (userController.js:84-93) is not modelled: it is best-effort and errors are swallowed.
- Accounts.RegisterUser does not enforce unique usernames or emails; the database's constraints do, and they are not modelled.
- Request parameters are taken as already-parsed ids, so non-numeric ids, JavaScript number precision and `NaN` are not modelled.
- Missing body fields are not modelled separately; a missing value is the empty string.
- Text.Lower lower-cases ASCII only.
- Text.LexLe orders by `char` value, which stands in for the UTF-16 code-unit order of `sort()`.
- Text.ExtName and Text.BaseName handle one path segment: names containing '/' are not modelled.
- ImageModel.Create returns the stored row, `created_at` included; the object `Image.create` returns (Image.js:10) has no `created_at`, so the upload response lacks that field, which the model does not distinguish.
- ThumbnailBackfill.NeedsThumbnail, the one-comparison predicate `!img.thumbnail_filename`, has no contract of its own; Candidates and UploadedImagesAreNotCandidates state what it selects.
- SiteSettings.ProcessSettings does not distinguish JSON objects from arrays (both are truthy and have no `startsWith`), and treats a non-object response body as no body.
- ThumbnailBackfill.GenerateThumbnail: a partial file sharp may leave behind on failure is not modelled.
- ThumbnailBackfill.Backfill draws each image's uuid and sharp outcome from a function of the image id, since the script attempts each image once.
- Migrations.Migrate takes the directory listing as input; a `readdir` failure and the `CREATE TABLE IF NOT EXISTS migrations` statement are not modelled.
- The administrator controller, the `Setting` model, the settings controller, the routes, `server.js`, and the React components and services other than `processSettings` are outside this model.
- The favicon and title effect of `SettingsContext` is not modelled: it is a browser side effect.

## Findings

| source | as written | input that shows it | evidently intended | confidence | as-written member | corrected member |
|---|---|---|---|---|---|---|
| backend/controllers/imageController.js:1 | `fs` is bound to `require('fs').promises`, which has no `unlinkSync`, so the over-quota clean-up at line 60 throws and the catch block answers 500 | any batch with at least one file whose total size exceeds the remaining quota | remove the temporary files and answer 413 "Storage limit exceeded." | high, not executed | ImageController.OverQuotaAsWrittenAnswers500 | ImageController.OverQuotaAnswers413 |
