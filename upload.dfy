/** The upload service: files are checked against a size limit and a list of
    MIME types, written under a fresh name to the upload directory and
    recorded in the `FileUpload` table; records can be read, listed, counted
    and deleted together with their file. The disk is a map from path to
    contents; the generated UUID and the clock are parameters. */
module Upload {
  import opened Common
  import opened Records
  import opened Store

  const UploadDir := "uploads"
  /** 10 MB. */
  const MaxFileSize := 10 * 1024 * 1024
  const AllowedMimes := [
    "image/jpeg", "image/jpg", "image/png", "image/webp", "image/svg+xml",
    "image/gif", "application/pdf", "video/mp4", "video/webm"]

  /** A file as the multipart parser hands it over. */
  datatype UploadedFile = UploadedFile(originalName: string, mimetype: string, size: int, buffer: seq<bv8>)

  // ---------------------------------------------------------------------
  // path.extname (POSIX)

  /** `s` without its trailing slashes. */
  function DropTrailingSlashes(s: string): (r: string)
    ensures |r| <= |s| && r == s[..|r|]
    ensures r == [] || r[|r| - 1] != '/'
    ensures '/' !in s ==> r == s
  {
    if s != [] && s[|s| - 1] == '/' then DropTrailingSlashes(s[..|s| - 1]) else s
  }

  /** The part of `s` after its last slash. */
  function AfterLastSlash(s: string): (r: string)
    ensures |r| <= |s| && r == s[|s| - |r|..]
    ensures '/' !in r
    ensures |r| < |s| ==> s[|s| - |r| - 1] == '/'
  {
    if s == [] || s[|s| - 1] == '/' then [] else AfterLastSlash(s[..|s| - 1]) + [s[|s| - 1]]
  }

  /** The last path segment, trailing slashes ignored. */
  function LastSegment(s: string): (r: string)
    ensures '/' !in r
  {
    AfterLastSlash(DropTrailingSlashes(s))
  }

  /** The index of the last '.' in `s`, or -1. */
  function LastDot(s: string): (i: int)
    ensures -1 <= i < |s|
    ensures i >= 0 ==> s[i] == '.'
    ensures forall j :: i < j < |s| ==> s[j] != '.'
  {
    if s == [] then -1 else if s[|s| - 1] == '.' then |s| - 1 else LastDot(s[..|s| - 1])
  }

  /** `path.extname`: from the last '.' of the last segment to its end; empty
      when the segment has no '.', starts with its only leading '.', or is "..". */
  function Extname(name: string): (r: string)
    ensures r == [] || (r[0] == '.' && '/' !in r && '.' !in r[1..])
  {
    var seg := LastSegment(name);
    var d := LastDot(seg);
    if d <= 0 || seg == ".." then "" else seg[d..]
  }

  /** A plain file name with a '.' after its first character ends in the
      extension that starts at its last '.'. */
  lemma ExtnameOfPlainName(name: string, d: nat)
    requires '/' !in name && 0 < d < |name| && name[d] == '.' && name != ".."
    requires forall j :: d < j < |name| ==> name[j] != '.'
    ensures Extname(name) == name[d..]
  {
    assert LastSegment(name) == name;
  }

  /** A plain file name without a '.' after its first character has no extension. */
  lemma ExtnameOfDotless(name: string)
    requires '/' !in name
    requires forall j :: 0 < j < |name| ==> name[j] != '.'
    ensures Extname(name) == ""
  {
    assert LastSegment(name) == name;
  }

  // ---------------------------------------------------------------------
  // The stored record

  /** `getFileType`: the class of a MIME type. */
  function GetFileType(mimetype: string): (t: string)
    ensures StartsWith(mimetype, "image/") ==> t == "image"
    ensures !StartsWith(mimetype, "image/") && StartsWith(mimetype, "video/") ==> t == "video"
    ensures t == "document" ==> mimetype == "application/pdf"
    ensures t == "other" <==> !StartsWith(mimetype, "image/") && !StartsWith(mimetype, "video/") && mimetype != "application/pdf"
  {
    if StartsWith(mimetype, "image/") then "image"
    else if StartsWith(mimetype, "video/") then "video"
    else if mimetype == "application/pdf" then "document"
    else "other"
  }

  /** Every accepted MIME type is classed as an image, a document or a video. */
  lemma AllowedMimeClassified(m: string)
    requires m in AllowedMimes
    ensures GetFileType(m) in {"image", "document", "video"}
  {
    var i :| 0 <= i < |AllowedMimes| && AllowedMimes[i] == m;
    if i < 6 {
      assert StartsWith(m, "image/");
    } else if i > 6 {
      assert StartsWith(m, "video/");
    }
  }

  /** The public URL of a stored file is its path from the server root. */
  lemma RootedPath(name: string)
    ensures "/" + (UploadDir + "/" + name) == "/uploads/" + name
  {
    var dir := UploadDir + "/";
    assert dir == "uploads/";
    assert "/" + dir == "/uploads/";
    assert "/" + (dir + name) == ("/" + dir) + name;
  }

  /** The name the file is stored under. */
  function StoredName(uuid: string, originalName: string): string {
    uuid + Extname(originalName)
  }

  /** The row `fileUpload.create` writes. */
  function FileRecord(f: UploadedFile, uuid: string, uploadedBy: Option<string>, now: int): FileUpload {
    var name := StoredName(uuid, f.originalName);
    FileUpload(name, f.originalName, f.mimetype, f.size, UploadDir + "/" + name, "/uploads/" + name,
               GetFileType(f.mimetype), uploadedBy, now)
  }

  /** An accepted file is always classed as an image, a document or a video. */
  lemma FileRecordKind(f: UploadedFile, uuid: string, uploadedBy: Option<string>, now: int)
    requires f.mimetype in AllowedMimes
    ensures FileRecord(f, uuid, uploadedBy, now).fileType in {"image", "document", "video"}
  {
    AllowedMimeClassified(f.mimetype);
  }

  /** Where the record says the file is: under its fresh name, which keeps
      the original extension, in the upload directory, and served from the
      same path below the server root. The other columns copy the upload. */
  lemma FileRecordLocation(f: UploadedFile, uuid: string, uploadedBy: Option<string>, now: int)
    ensures var rec := FileRecord(f, uuid, uploadedBy, now);
      && rec.filename == uuid + Extname(f.originalName)
      && rec.path == UploadDir + "/" + rec.filename
      && rec.url == "/" + rec.path
      && rec.originalName == f.originalName && rec.mimetype == f.mimetype && rec.size == f.size
      && rec.uploadedBy == uploadedBy && rec.createdAt == now
  {
    RootedPath(StoredName(uuid, f.originalName));
  }

  /** The checks `uploadFile` makes before touching the disk, in order. */
  function Rejection(file: Option<UploadedFile>): (e: Option<Error>)
    ensures e.None? <==> file.Some? && file.value.size <= MaxFileSize && file.value.mimetype in AllowedMimes
  {
    if file.None? then Some(BadRequest("No file provided"))
    else if file.value.size > MaxFileSize then Some(BadRequest("File size exceeds limit (10MB)"))
    else if file.value.mimetype !in AllowedMimes then Some(BadRequest("Invalid file type: " + file.value.mimetype))
    else None
  }

  // ---------------------------------------------------------------------
  // Queries

  /** `listFiles`' filter: uploader and type when given (type "all" means
      any), and `search` as a substring of the original name. */
  predicate FileMatches(f: FileUpload, uploadedBy: Option<string>, fileType: Option<string>, search: Option<string>) {
    && (Truthy(uploadedBy) ==> f.uploadedBy == uploadedBy)
    && (Truthy(fileType) && fileType.value != "all" ==> f.fileType == fileType.value)
    && (Truthy(search) ==> Contains(f.originalName, search.value))
  }

  function MatchingFiles(t: map<Id, FileUpload>, uploadedBy: Option<string>, fileType: Option<string>,
                         search: Option<string>): (r: map<Id, FileUpload>)
    ensures forall k :: k in r <==> k in t && FileMatches(t[k], uploadedBy, fileType, search)
    ensures forall k :: k in r ==> r[k] == t[k]
  {
    map k | k in t && FileMatches(t[k], uploadedBy, fileType, search) :: t[k]
  }

  /** Without filters every file is listed. */
  lemma NoFiltersListAll(t: map<Id, FileUpload>)
    ensures MatchingFiles(t, None, None, None) == t
    ensures MatchingFiles(t, None, Some("all"), None) == t
  {
  }

  predicate IsImage(f: FileUpload) { f.fileType == "image" }
  predicate IsDocument(f: FileUpload) { f.fileType == "document" }
  predicate IsVideo(f: FileUpload) { f.fileType == "video" }
  function FileSize(f: FileUpload): int { f.size }

  datatype FileStats = FileStats(total: nat, images: nat, documents: nat, videos: nat, totalSize: int)

  /** Images, documents and videos are disjoint kinds of file, so together
      they never outnumber the files. */
  lemma KindsWithinTotal(t: map<Id, FileUpload>)
    ensures |Where(t, IsImage)| + |Where(t, IsDocument)| + |Where(t, IsVideo)| <= |t|
  {
    var a, b, c := Where(t, IsImage).Keys, Where(t, IsDocument).Keys, Where(t, IsVideo).Keys;
    assert a * b == {} && (a + b) * c == {};
    assert |a + b| == |a| + |b|;
    assert |a + b + c| == |a + b| + |c|;
    SubsetCard(a + b + c, t.Keys);
  }

  class UploadService {
    const db: Store
    /** The files under the upload directory, by path. */
    var disk: map<string, seq<bv8>>

    constructor (db: Store)
      ensures this.db == db && disk == map[]
    {
      this.db := db;
      disk := map[];
    }

    /** Checks the file, writes it under `uploads/<uuid><ext>` and records
        it. A failed write leaves nothing behind; a failed insert leaves the
        written file on disk. */
    method UploadFile(file: Option<UploadedFile>, uploadedBy: Option<string>, uuid: string, now: int,
                      writeFault: Option<Fault>, fault: Option<Fault>) returns (r: Result<(Id, FileUpload)>)
      modifies this`disk, db`files
      ensures Rejection(file).Some? ==> r == Err(Rejection(file).value) && unchanged(this, db)
      ensures Rejection(file).None? && writeFault.Some? ==> r == Err(Unhandled(writeFault.value)) && unchanged(this, db)
      ensures Rejection(file).None? && writeFault.None? ==> (
        var rec := FileRecord(file.value, uuid, uploadedBy, now);
        && disk == old(disk)[rec.path := file.value.buffer]
        && (fault.Some? ==> r == Err(Unhandled(fault.value)) && unchanged(db))
        && (fault.None? ==> (r.Ok? && r.value.1 == rec && r.value.0 !in old(db.files)
              && db.files == old(db.files)[r.value.0 := rec])))
    {
      var rejected := Rejection(file);
      if rejected.Some? {
        return Err(rejected.value);
      }
      var f := file.value;
      // the stored name, its path and URL, and the file's kind
      var rec := FileRecord(f, uuid, uploadedBy, now);
      if writeFault.Some? {
        return Err(Unhandled(writeFault.value));
      }
      disk := disk[rec.path := f.buffer];
      if fault.Some? {
        return Err(Unhandled(fault.value));
      }
      var id := FreshId(db.files.Keys);
      db.files := db.files[id := rec];
      r := Ok((id, rec));
    }

    /** Deletes a file record and, when it can, its file; a file that
        cannot be unlinked is left and the record is deleted anyway. */
    method DeleteFile(id: Id, unlinkFails: bool, fault: Option<Fault>) returns (r: Result<()>)
      modifies this`disk, db`files
      ensures id !in old(db.files) ==> r == Err(BadRequest("File not found")) && unchanged(this, db)
      ensures id in old(db.files) ==> (
        && disk == (if unlinkFails then old(disk) else old(disk) - {old(db.files)[id].path})
        && (fault.Some? ==> r == Err(Unhandled(fault.value)) && unchanged(db))
        && (fault.None? ==> r == Ok(()) && db.files == old(db.files) - {id}))
    {
      if id !in db.files {
        return Err(BadRequest("File not found"));
      }
      var rec := db.files[id];
      if !unlinkFails {
        disk := disk - {rec.path};
      }
      if fault.Some? {
        return Err(Unhandled(fault.value));
      }
      db.files := db.files - {id};
      r := Ok(());
    }

    /** One file record. */
    method GetFile(id: Id, fault: Option<Fault>) returns (r: Result<(Id, FileUpload)>)
      ensures fault.Some? ==> r == Err(Unhandled(fault.value))
      ensures fault.None? && id !in db.files ==> r == Err(BadRequest("File not found"))
      ensures r.Ok? <==> fault.None? && id in db.files
      ensures r.Ok? ==> r.value == (id, db.files[id])
    {
      if fault.Some? {
        return Err(Unhandled(fault.value));
      }
      if id !in db.files {
        return Err(BadRequest("File not found"));
      }
      r := Ok((id, db.files[id]));
    }

    /** The matching file records, newest first. */
    method ListFiles(uploadedBy: Option<string>, fileType: Option<string>, search: Option<string>, fault: Option<Fault>)
      returns (r: Result<seq<(Id, FileUpload)>>)
      ensures fault.Some? ==> r == Err(Unhandled(fault.value))
      ensures fault.None? ==> (r.Ok?
        && Listing(r.value, MatchingFiles(db.files, uploadedBy, fileType, search))
        && (forall i, j :: 0 <= i < j < |r.value| ==> r.value[i].1.createdAt >= r.value[j].1.createdAt))
    {
      if fault.Some? {
        return Err(Unhandled(fault.value));
      }
      var rows := FindMany(MatchingFiles(db.files, uploadedBy, fileType, search), FileNewestFirst);
      r := Ok(rows);
    }

    /** The number of files, of images, documents and videos, and their
        total size (0 when there are none). */
    method GetFileStats(fault: Option<Fault>) returns (r: Result<FileStats>)
      ensures fault.Some? ==> r == Err(Unhandled(fault.value))
      ensures fault.None? ==> (r.Ok?
        && r.value.total == |db.files|
        && r.value.images == |Where(db.files, IsImage)|
        && r.value.documents == |Where(db.files, IsDocument)|
        && r.value.videos == |Where(db.files, IsVideo)|
        && r.value.totalSize == SumOf(db.files, FileSize)
        && r.value.images + r.value.documents + r.value.videos <= r.value.total)
    {
      if fault.Some? {
        return Err(Unhandled(fault.value));
      }
      var sum := Aggregate(db.files, FileSize);
      KindsWithinTotal(db.files);
      r := Ok(FileStats(|db.files|, |Where(db.files, IsImage)|, |Where(db.files, IsDocument)|,
                        |Where(db.files, IsVideo)|, if db.files == map[] then 0 else sum));
    }
  }
}
