/** The media upload middleware (MIME filter, error-to-message mapping, single-file
    normalisation) and the per-file upload step shared by post creation and reposting. */
module Uploads {
  import opened Common
  import opened PostSchema

  /** An uploaded file as the middleware sees it; its bytes are not modelled. */
  datatype File = File(fieldname: string, mimetype: string, size: nat)

  const ImageTypes: seq<string> := ["image/jpeg", "image/png", "image/webp", "image/gif"]
  const VideoTypes: seq<string> := ["video/mp4", "video/quicktime", "video/x-msvideo", "video/webm"]

  /** The accepted MIME types, in the order the filter lists them. */
  const AllowedTypes: seq<string> := ImageTypes + VideoTypes

  const InvalidTypeMessage: string :=
    "Invalid file type. Only images (JPEG, PNG, WEBP, GIF) and videos (MP4, MOV, AVI, WEBM) are allowed"
  const FileTooLargeMessage: string := "File too large. Maximum size is 100MB"
  const TooManyFilesMessage: string := "Maximum 10 files allowed per post"

  /** multer's limits: 100 MiB per file, 10 files per request. */
  const MaxFileSize: nat := 100 * 1024 * 1024
  const MaxFiles: nat := 10

  /** What fileFilter passes to its callback. */
  datatype Verdict = Accept | Reject(message: string)

  function FileFilter(f: File): (r: Verdict)
    ensures r.Accept? <==> f.mimetype in AllowedTypes
    ensures r.Reject? ==> r.message == InvalidTypeMessage
  {
    if f.mimetype in AllowedTypes then Accept else Reject(InvalidTypeMessage)
  }

  /** The filter lets through exactly the four image and four video types, and
      nothing whose type is neither `image/` nor `video/`. */
  lemma FilterAcceptsListedMediaOnly(f: File)
    ensures FileFilter(f).Accept? <==> f.mimetype in ImageTypes || f.mimetype in VideoTypes
    ensures FileFilter(f).Accept? ==> |f.mimetype| > 6 && (f.mimetype[..6] == "image/" || f.mimetype[..6] == "video/")
    ensures |AllowedTypes| == 8 && NoDups(AllowedTypes)
  {
    if f.mimetype in ImageTypes {
      var k :| 0 <= k < 4 && ImageTypes[k] == f.mimetype;
      assert f.mimetype[..6] == "image/";
    } else if f.mimetype in VideoTypes {
      var k :| 0 <= k < 4 && VideoTypes[k] == f.mimetype;
      assert f.mimetype[..6] == "video/";
    }
    assert AllowedTypes == ["image/jpeg", "image/png", "image/webp", "image/gif",
                            "video/mp4", "video/quicktime", "video/x-msvideo", "video/webm"];
  }

  /** An error raised while multer parses the request: its code, if any, and message. */
  datatype UploadError = UploadError(code: Option<string>, message: string)

  /** The error a filter rejection turns into: it carries no code. */
  function RejectionError(v: Verdict): Option<UploadError> {
    if v.Reject? then Some(UploadError(None, v.message)) else None
  }

  /** The message answered for an upload error. */
  function ErrorMessage(e: UploadError): (m: string)
    ensures e.code == Some("LIMIT_FILE_SIZE") ==> m == FileTooLargeMessage
    ensures e.code == Some("LIMIT_FILE_COUNT") ==> m == TooManyFilesMessage
    ensures e.code != Some("LIMIT_FILE_SIZE") && e.code != Some("LIMIT_FILE_COUNT") ==> m == e.message
  {
    if e.code == Some("LIMIT_FILE_SIZE") then FileTooLargeMessage
    else if e.code == Some("LIMIT_FILE_COUNT") then TooManyFilesMessage
    else e.message
  }

  /** What the middleware does with the request: answer, or hand over to the next handler. */
  datatype Continuation = Next | Answer(status: Status, message: string)

  /** The request fields the middleware reads and writes. */
  class UploadRequest {
    var files: Option<map<string, seq<File>>>
    var file: Option<File>

    constructor (files: Option<map<string, seq<File>>>, file: Option<File>)
      ensures this.files == files && this.file == file
    {
      this.files := files;
      this.file := file;
    }
  }

  /** handleMediaUpload, given the outcome of multer's parse: any error is answered
      with 400 and its mapped message; otherwise a single file becomes `files.media`
      and the next handler runs. */
  method HandleMediaUpload(req: UploadRequest, err: Option<UploadError>) returns (c: Continuation)
    modifies req
    ensures err.Some? ==> c == Answer(BadRequest, ErrorMessage(err.value)) && req.files == old(req.files)
    ensures err.None? ==> c == Next
    ensures err.None? && old(req.file).Some? ==> req.files == Some(map["media" := [old(req.file).value]])
    ensures err.None? && old(req.file).None? ==> req.files == old(req.files)
    ensures req.file == old(req.file)
  {
    if err.Some? {
      var message := err.value.message;
      if err.value.code == Some("LIMIT_FILE_SIZE") {
        message := FileTooLargeMessage;
      } else if err.value.code == Some("LIMIT_FILE_COUNT") {
        message := TooManyFilesMessage;
      }
      return Answer(BadRequest, message);
    }
    if req.file.Some? {
      req.files := Some(map["media" := [req.file.value]]);
    }
    return Next;
  }

  /** A file of a type the filter refuses is answered with 400 and the fixed
      invalid-type message. */
  lemma RejectedTypeAnswer(f: File)
    requires f.mimetype !in AllowedTypes
    ensures RejectionError(FileFilter(f)).Some?
    ensures ErrorMessage(RejectionError(FileFilter(f)).value) == InvalidTypeMessage
  {
  }

  // ---------------------------------------------------------------------------
  // Uploading to the media host
  // ---------------------------------------------------------------------------

  /** What the media host reports for a stored file. */
  datatype HostResult = HostResult(secureUrl: string, resourceType: string)

  /** uploadToCloudinary's resolved value: a video keeps its own url as thumbnail;
      anything else is an image without one. */
  function MediaOf(h: HostResult): (m: Media)
    ensures m.url == h.secureUrl
    ensures m.kind == Video <==> h.resourceType == "video"
    ensures m.thumbnail.Some? <==> m.kind == Video
    ensures m.thumbnail.Some? ==> m.thumbnail.value == h.secureUrl
  {
    if h.resourceType == "video" then Media(h.secureUrl, Video, Some(h.secureUrl))
    else Media(h.secureUrl, Image, None)
  }

  /** The media the upload loop collects: one item per file whose upload succeeds
      (`host` answers None for a failed upload), in file order. */
  function Uploaded(files: seq<File>, host: File -> Option<HostResult>): (r: seq<Media>)
    ensures |r| <= |files|
    decreases |files|
  {
    if files == [] then []
    else
      var rest := Uploaded(files[..|files| - 1], host);
      var last := files[|files| - 1];
      if host(last).Some? then rest + [MediaOf(host(last).value)] else rest
  }

  /** Each collected item comes from some file's successful upload. */
  lemma {:induction false} UploadedFromFiles(files: seq<File>, host: File -> Option<HostResult>)
    ensures forall m :: m in Uploaded(files, host) ==>
      exists k :: 0 <= k < |files| && host(files[k]).Some? && m == MediaOf(host(files[k]).value)
  {
    if files != [] {
      var n := |files| - 1;
      UploadedFromFiles(files[..n], host);
      forall m | m in Uploaded(files, host)
        ensures exists k :: 0 <= k < |files| && host(files[k]).Some? && m == MediaOf(host(files[k]).value)
      {
        if m in Uploaded(files[..n], host) {
          var k :| 0 <= k < |files[..n]| && host(files[..n][k]).Some? && m == MediaOf(host(files[..n][k]).value);
          assert files[..n][k] == files[k];
        } else {
          assert host(files[n]).Some? && m == MediaOf(host(files[n]).value);
        }
      }
    }
  }

  /** When every upload succeeds, nothing is skipped: one item per file, in order. */
  lemma {:induction false} UploadedAllSucceed(files: seq<File>, host: File -> Option<HostResult>)
    requires forall k :: 0 <= k < |files| ==> host(files[k]).Some?
    ensures |Uploaded(files, host)| == |files|
    ensures forall k :: 0 <= k < |files| ==> Uploaded(files, host)[k] == MediaOf(host(files[k]).value)
  {
    if files != [] {
      var n := |files| - 1;
      UploadedAllSucceed(files[..n], host);
      forall k | 0 <= k < n ensures Uploaded(files, host)[k] == MediaOf(host(files[k]).value) {
        assert files[..n][k] == files[k];
      }
    }
  }

  /** A failed upload contributes nothing and does not stop the loop. */
  lemma UploadFailureSkipped(files: seq<File>, f: File, host: File -> Option<HostResult>)
    requires host(f).None?
    ensures Uploaded(files + [f], host) == Uploaded(files, host)
  {
    assert (files + [f])[..|files|] == files;
  }

  /** The upload loop: each file is uploaded in turn and a failure is skipped. */
  method UploadAll(files: seq<File>, host: File -> Option<HostResult>) returns (media: seq<Media>)
    ensures media == Uploaded(files, host)
  {
    media := [];
    var i := 0;
    while i < |files|
      invariant 0 <= i <= |files|
      invariant media == Uploaded(files[..i], host)
    {
      assert files[..i + 1][..i] == files[..i];
      var uploaded := host(files[i]);
      if uploaded.Some? {
        media := media + [MediaOf(uploaded.value)];
      }
      i := i + 1;
    }
    assert files[..|files|] == files;
  }
}
