/** The request middleware: the upload and profile-picture filters with their
    size limits, the role gate and the optional bearer-token check. Each one
    either answers the request or passes it on by calling `next`. */
module Middleware {
  import opened Wrappers
  import opened Text
  import opened Records
  import opened Access
  import ImageProcessing

  /** What a middleware did: the status it answered with, if any, how many
      times it called `next`, and the user it attached to the request. */
  datatype Outcome = Outcome(response: Option<nat>, nextCalls: nat, user: Option<Principal>)

  /** Exactly one of "answered" and "passed on once". */
  predicate ExactlyOne(o: Outcome) {
    (o.response.Some? && o.nextCalls == 0) || (o.response.None? && o.nextCalls == 1)
  }

  // ---------------------------------------------------------------------------
  // Image uploads
  // ---------------------------------------------------------------------------

  /** The mimetypes the image upload accepts, compared exactly. */
  const UploadMimeTypes: seq<string> :=
    ["image/jpeg", "image/png", "image/gif", "image/bmp", "image/webp", "image/tiff", "image/svg+xml"]

  /** The per-file limit of the image upload, in bytes. */
  const UploadSizeLimit: nat := 1024 * 1024 * 5

  /** The verdict on one file: taken, or refused with an error message. */
  datatype FileVerdict = Accept | Reject(message: string)

  const UploadTypeMessage: string := "Invalid file type. Only image files are allowed."
  const ProfileTypeMessage: string := "Invalid file type. Only JPEG, PNG, WEBP and GIF are allowed."
  /** multer's message for a file over the limit (`LIMIT_FILE_SIZE`). */
  const TooLargeMessage: string := "File too large"

  /** multer with a `fileFilter` and a `fileSize` limit: the filter is asked
      first; a file it takes is refused once it grows past the limit. */
  function Screen(allowed: seq<string>, typeMessage: string, limit: nat, mimetype: string, size: nat)
    : (r: FileVerdict)
    ensures r.Accept? <==> mimetype in allowed && size <= limit
    ensures r.Reject? ==> r.message == (if mimetype in allowed then TooLargeMessage else typeMessage)
  {
    if mimetype !in allowed then Reject(typeMessage)
    else if size > limit then Reject(TooLargeMessage)
    else Accept
  }

  /** The image upload's filter and limit. */
  function ScreenUpload(mimetype: string, size: nat): (r: FileVerdict)
    ensures r.Accept? <==> mimetype in UploadMimeTypes && size <= UploadSizeLimit
  {
    Screen(UploadMimeTypes, UploadTypeMessage, UploadSizeLimit, mimetype, size)
  }

  /** SVG passes the upload filter ... */
  lemma SvgPassesUploadFilter(size: nat)
    requires size <= UploadSizeLimit
    ensures ScreenUpload("image/svg+xml", size).Accept?
  {
  }

  /** ... but is not a format the processing service supports. */
  lemma SvgIsUnsupported()
    ensures !ImageProcessing.IsSupportedImageFormat("image/svg+xml")
  {
    LowerOfSvg();
    UnsupportedByLength("image/svg+xml");
  }

  /** Every other type the upload filter takes is supported. */
  lemma FilteredTypesSupported(m: string)
    requires m in UploadMimeTypes && m != "image/svg+xml"
    ensures ImageProcessing.IsSupportedImageFormat(m)
  {
    UploadTypesAreLowercase(m);
    SupportedWhenLowercase(m);
    assert m in ImageProcessing.SupportedFormats by {
      if m == "image/jpeg" { } else if m == "image/png" { } else if m == "image/gif" { }
      else if m == "image/bmp" { } else if m == "image/webp" { } else if m == "image/tiff" { }
    }
  }

  /** The filter compares exactly where the service lower-cases: an upper-case
      spelling of a supported type is refused before it reaches the service. */
  lemma FilterIsCaseSensitive()
    ensures ScreenUpload("IMAGE/PNG", 0).Reject?
    ensures ImageProcessing.IsSupportedImageFormat("IMAGE/PNG")
  {
    LowerOfUpperPng();
  }

  /** The listed types are written in lower case. */
  lemma UploadTypesAreLowercase(m: string)
    requires m in UploadMimeTypes
    ensures Lower(m) == m
  {
    if m == "image/jpeg" { LowerOfLowercase("image/jpeg"); }
    else if m == "image/png" { LowerOfLowercase("image/png"); }
    else if m == "image/gif" { LowerOfLowercase("image/gif"); }
    else if m == "image/bmp" { LowerOfLowercase("image/bmp"); }
    else if m == "image/webp" { LowerOfLowercase("image/webp"); }
    else if m == "image/tiff" { LowerOfLowercase("image/tiff"); }
    else if m == "image/svg+xml" { LowerOfLowercase("image/svg+xml"); }
  }

  /** For a mimetype already in lower case, support is plain membership. */
  lemma SupportedWhenLowercase(m: string)
    requires Lower(m) == m
    ensures ImageProcessing.IsSupportedImageFormat(m) <==> m in ImageProcessing.SupportedFormats
  {
  }

  /** Every supported mimetype is at most ten characters long. */
  lemma UnsupportedByLength(m: string)
    requires Lower(m) == m && |m| > 10
    ensures !ImageProcessing.IsSupportedImageFormat(m)
  {
    assert forall s :: s in ImageProcessing.SupportedFormats ==> |s| <= 10;
  }

  lemma LowerOfSvg()
    ensures Lower("image/svg+xml") == "image/svg+xml"
  {
    LowerOfLowercase("image/svg+xml");
  }

  lemma LowerOfUpperPng()
    ensures Lower("IMAGE/PNG") == "image/png"
  {
  }

  // ---------------------------------------------------------------------------
  // Profile pictures
  // ---------------------------------------------------------------------------

  const ProfileMimeTypes: seq<string> := ["image/jpeg", "image/png", "image/gif", "image/webp"]

  const ProfileSizeLimit: nat := 5 * 1024 * 1024

  /** The file part `profilePicture` of a request. */
  datatype ProfileFile = ProfileFile(originalName: string, mimetype: string, size: nat)

  /** The name the disk storage gives a profile picture: a uuid followed by the
      original name's extension. */
  function ProfileStoredName(uuid: string, originalName: string): string {
    uuid + ExtName(originalName)
  }

  /** A uuid (non-empty, no dot) keeps the original extension and is the
      whole base name. */
  lemma ProfileStoredNameKeepsExtension(uuid: string, originalName: string)
    requires |uuid| > 0 && '.' !in uuid
    ensures StartsWith(ProfileStoredName(uuid, originalName), uuid)
    ensures ExtName(ProfileStoredName(uuid, originalName)) == ExtName(originalName)
    ensures BaseName(ProfileStoredName(uuid, originalName), ExtName(originalName)) == uuid
  {
    var e := ExtName(originalName);
    var name := uuid + e;
    assert name[..|uuid|] == uuid;
    if e == "" {
      assert name == uuid;
      assert LastIndexOf(name, '.') == -1;
    } else {
      assert uuid != "." by { assert '.' !in uuid; }
      ExtNameOfSuffixed(uuid, e);
    }
  }

  /** The result of `handleUpload`: the outcome, and the stored name of the
      file multer wrote, if it wrote one. */
  datatype ProfileUploadResult = ProfileUploadResult(outcome: Outcome, stored: Option<string>, message: Option<string>)

  /** `handleUpload`: the filter's refusal and the size limit are answered
      with 400 and their message; otherwise `next` runs, with or without a
      file. At most one `profilePicture` file is represented, so multer's
      unexpected-field error is outside this model. */
  function HandleUpload(file: Option<ProfileFile>, uuid: string): (r: ProfileUploadResult)
    ensures ExactlyOne(r.outcome) && r.outcome.user.None?
    ensures r.outcome.response.Some? <==>
              file.Some? && (file.value.mimetype !in ProfileMimeTypes || file.value.size > ProfileSizeLimit)
    ensures r.outcome.response.Some? ==> r.outcome.response == Some(BadRequest) && r.message.Some? && r.stored.None?
    ensures r.outcome.response.None? ==> r.message.None?
    ensures r.stored.Some? <==> r.outcome.response.None? && file.Some?
    ensures r.stored.Some? ==> r.stored.value == ProfileStoredName(uuid, file.value.originalName)
    ensures r.stored.Some? ==> file.value.mimetype in UploadMimeTypes
  {
    match file
    case None => ProfileUploadResult(Outcome(None, 1, None), None, None)
    case Some(f) =>
      match Screen(ProfileMimeTypes, ProfileTypeMessage, ProfileSizeLimit, f.mimetype, f.size)
      case Reject(message) => ProfileUploadResult(Outcome(Some(BadRequest), 0, None), None, Some(message))
      case Accept => ProfileUploadResult(Outcome(None, 1, None), Some(ProfileStoredName(uuid, f.originalName)), None)
  }

  // ---------------------------------------------------------------------------
  // authorizeRole
  // ---------------------------------------------------------------------------

  /** `authorizeRole(roles)`: 403 without a user or with a role not listed,
      otherwise `next`. */
  function AuthorizeRole(roles: seq<string>, user: Option<Principal>): (r: Outcome)
    ensures ExactlyOne(r) && r.user == user
    ensures r.response.Some? <==> user.None? || user.value.role !in roles
    ensures r.response.Some? ==> r.response.value == Forbidden
  {
    if user.None? || user.value.role !in roles then Outcome(Some(Forbidden), 0, user)
    else Outcome(None, 1, user)
  }

  /** Listing more roles never shuts anyone out, and the administrator gate
      lets exactly the administrators through. */
  lemma AuthorizeRoleMonotone(roles: seq<string>, more: seq<string>, user: Option<Principal>)
    ensures AuthorizeRole(roles, user).nextCalls == 1 ==> AuthorizeRole(roles + more, user).nextCalls == 1
    ensures AuthorizeRole([AdminRole], user).nextCalls == 1 <==> user.Some? && IsAdmin(user.value)
  {
  }

  // ---------------------------------------------------------------------------
  // optionalAuth
  // ---------------------------------------------------------------------------

  /** `authHeader && authHeader.split(' ')[1]`: no header gives no token; an
      empty header is falsy and is itself the token; otherwise the second
      space-separated segment, which a header without a space does not have. */
  function BearerToken(header: Option<string>): (r: Option<string>)
    ensures header.None? ==> r.None?
    ensures header.Some? && header.value != "" && ' ' !in header.value ==> r.None?
    ensures r.Some? ==> ' ' !in r.value
    ensures header.Some? && ' ' in header.value ==> r.Some? && r.value == Split(header.value, ' ')[1]
    ensures header.Some? && StartsWith(header.value, "Bearer ") && ' ' !in header.value[7..] ==>
              r == Some(header.value[7..])
  {
    match header
    case None => None
    case Some(h) =>
      SchemeSegment(h);
      if h == "" then Some("")
      else if ' ' !in h then None
      else
        SecondSegmentIsSplitOne(h, ' ');
        Some(SecondSegment(h, ' '))
  }

  /** In `Bearer <token>`, with no space in the token, the segment after the
      first space is the token. */
  lemma SchemeSegment(h: string)
    ensures StartsWith(h, "Bearer ") ==> ' ' in h
    ensures StartsWith(h, "Bearer ") && ' ' !in h[7..] ==> SecondSegment(h, ' ') == h[7..]
  {
    if StartsWith(h, "Bearer ") {
      assert h[6] == ' ' && ' ' !in h[..6];
      assert IndexOf(h, ' ') == 6;
    }
  }

  /** `optionalAuth`, with `jwt.verify` as the oracle `verify` (`None` for an
      invalid token): a verified payload is attached, and `next` is called once
      on every path; no error is ever sent. */
  function OptionalAuth(header: Option<string>, verify: string -> Option<Principal>): (r: Outcome)
    ensures ExactlyOne(r) && r.response.None?
    ensures BearerToken(header).None? ==> r.user.None?
    ensures BearerToken(header).Some? ==> r.user == verify(BearerToken(header).value)
  {
    match BearerToken(header)
    case None => Outcome(None, 1, None)
    case Some(token) => Outcome(None, 1, verify(token))
  }
}
