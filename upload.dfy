/**
 * `upload_file`: a course file is checked, its text extracted, the original
 * bytes kept in the `course-files` bucket under `<course id>/<filename>`, a
 * file record created, and the text chunked into chunk rows numbered 0..n-1
 * in chunk order, each paired with its embedding.
 *
 * PDF extraction, UTF-8 decoding, token counting and the embedding service
 * are parameters (`Services`).
 */
module Upload {
  import opened Wrappers
  import opened Seqs
  import opened Text
  import opened Models
  import opened Store
  import Chunking

  /** How the text of an upload is obtained. */
  datatype FileKind = Pdf | PlainText

  /** The foreign services an upload relies on. */
  datatype Services = Services(
    extractPdf: seq<Byte> -> string,
    decode: seq<Byte> -> string,
    count: string -> nat,
    embed: seq<string> -> seq<Embedding>)

  /** The default name of an upload without a filename (an empty name is missing too). */
  const Unnamed: string := "unnamed_file"

  /** The name the upload is stored under. */
  function StoredName(filename: Option<string>): (r: string)
    ensures r != []
    ensures r == Unnamed <==> filename.None? || filename.value == [] || filename.value == Unnamed
  {
    if filename.Some? && filename.value != [] then filename.value else Unnamed
  }

  /** The file type, by the lower-cased suffix: `.pdf`, else `.txt` or `.md`, else none. */
  function KindOf(filename: string): Option<FileKind> {
    var name := Lower(filename);
    if EndsWith(name, ".pdf") then Some(Pdf)
    else if EndsWith(name, ".txt") || EndsWith(name, ".md") then Some(PlainText)
    else None
  }

  /** Lower-casing ignores the case a letter had. */
  lemma LowerUpper(s: string)
    ensures Lower(Upper(s)) == Lower(s)
  {
    forall k | 0 <= k < |s|
      ensures Lower(Upper(s))[k] == Lower(s)[k]
    {
      assert Upper(s)[k] == UpperChar(s[k]);
    }
  }

  /** The file type does not depend on the case of the filename's letters. */
  lemma KindIgnoresCase(filename: string)
    ensures KindOf(Upper(filename)) == KindOf(filename)
  {
    LowerUpper(filename);
  }

  /** An upload without a filename is of no supported type. */
  lemma UnnamedUnsupported(filename: Option<string>)
    requires filename.None? || filename.value == []
    ensures KindOf(StoredName(filename)).None?
  {
    var name := Lower(Unnamed);
    assert name == "unnamed_file";
    assert name[|name| - 4..] == "file";
    assert name[|name| - 3..] == "ile";
  }

  /** The text of the upload. */
  function TextOf(kind: FileKind, content: seq<Byte>, services: Services): string {
    match kind
    case Pdf => services.extractPdf(content)
    case PlainText => services.decode(content)
  }

  /** Where the original bytes are kept in the bucket. */
  function StoragePath(courseId: Id, filename: string): string {
    NatToString(courseId) + "/" + filename
  }

  /**
   * The chunk rows of a file: the i-th chunk with the i-th embedding, as
   * chunk number i, with ids from `first` on; there are as many rows as
   * there are chunks with an embedding.
   */
  function ChunkRows(courseId: Id, fileId: Id, chunks: seq<string>, embeddings: seq<Embedding>, first: nat): (r: seq<ChunkRow>)
    ensures |r| == (if |chunks| <= |embeddings| then |chunks| else |embeddings|)
    ensures forall i :: 0 <= i < |r| ==>
      && r[i].id == first + i && r[i].courseId == courseId && r[i].fileId == fileId
      && r[i].chunkIndex == i && r[i].content == chunks[i] && r[i].embedding == embeddings[i]
  {
    var n := if |chunks| <= |embeddings| then |chunks| else |embeddings|;
    seq(n, i requires 0 <= i < n => ChunkRow(first + i, courseId, fileId, i, chunks[i], embeddings[i]))
  }

  /** What an upload returns and the tables it leaves. */
  datatype Outcome = Outcome(result: Result<UploadResponse, Status>, tables: Tables)

  /**
   * An accepted upload with its chunks and their embeddings: the bytes are
   * stored, the file record appended and its chunk rows after it, and the
   * response counts the chunks.
   */
  function Accepted(t: Tables, courseId: Id, name: string, content: seq<Byte>, chunks: seq<string>, embeddings: seq<Embedding>): Outcome {
    var path := StoragePath(courseId, name);
    var rows := ChunkRows(courseId, t.next, chunks, embeddings, t.next + 1);
    Outcome(
      Success(UploadResponse(true, name, |chunks|)),
      t.(storage := t.storage[path := content],
         files := t.files + [CourseFile(t.next, courseId, name, path, t.next)],
         chunks := t.chunks + rows,
         next := t.next + 1 + |rows|))
  }

  /**
   * The effect of `upload_file`: 404 without the course, 400 for an
   * unsupported type and 400 for a blank text, all before any write;
   * otherwise the upload is accepted with the text's chunks.
   */
  function Uploaded(t: Tables, courseId: Id, filename: Option<string>, content: seq<Byte>, services: Services): Outcome {
    var name := StoredName(filename);
    if CourseById(t.courses, courseId).None? then Outcome(Failure(Status(404, "Course not found")), t)
    else match KindOf(name)
      case None => Outcome(Failure(Status(400, "Unsupported file type. Use PDF, TXT, or MD.")), t)
      case Some(kind) =>
        var text := TextOf(kind, content, services);
        if Blank(text) then Outcome(Failure(Status(400, "No text content found in file")), t)
        else
          var chunks := Chunking.Chunked(services.count, Chunking.ChunkSize, text);
          Accepted(t, courseId, name, content, chunks, services.embed(chunks))
  }

  /**
   * `upload_file`: the checks, then the writes of an accepted upload.
   * Chunking and embedding read no table, so they are computed before the
   * writes; the source computes them after the file record is inserted.
   */
  method UploadFile(db: Database, courseId: Id, filename: Option<string>, content: seq<Byte>, services: Services)
    returns (r: Result<UploadResponse, Status>)
    requires db.Valid()
    modifies db
    ensures db.Valid()
    ensures Outcome(r, db.State()) == Uploaded(old(db.State()), courseId, filename, content, services)
  {
    if CourseById(db.courses, courseId).None? {
      return Failure(Status(404, "Course not found"));
    }
    var name := StoredName(filename);
    var kind := KindOf(name);
    if kind.None? {
      return Failure(Status(400, "Unsupported file type. Use PDF, TXT, or MD."));
    }
    var text := TextOf(kind.value, content, services);
    if Blank(text) {
      return Failure(Status(400, "No text content found in file"));
    }
    var chunks := Chunking.ChunkText(services.count, Chunking.ChunkSize, text);
    // The source answers 400 for an empty chunk list; the text is not blank, so there is a chunk.
    assert chunks != [];
    var embeddings := services.embed(chunks);
    r := StoreUpload(db, courseId, name, content, chunks, embeddings);
  }

  /** The writes of an accepted upload. */
  method StoreUpload(db: Database, courseId: Id, name: string, content: seq<Byte>, chunks: seq<string>, embeddings: seq<Embedding>)
    returns (r: Result<UploadResponse, Status>)
    requires db.Valid()
    modifies db
    ensures db.Valid()
    ensures Outcome(r, db.State()) == Accepted(old(db.State()), courseId, name, content, chunks, embeddings)
  {
    var path := StoragePath(courseId, name);
    var fileId := db.next;
    var file := CourseFile(fileId, courseId, name, path, fileId);
    var rows := ChunkRows(courseId, fileId, chunks, embeddings, fileId + 1);
    ghost var t := db.State();
    AddUploadConsistent(t, file, rows, path, content);
    db.storage, db.files, db.chunks, db.next := db.storage[path := content], db.files + [file], db.chunks + rows, fileId + 1 + |rows|;
    assert db.State() == t.(storage := t.storage[path := content], files := t.files + [file], chunks := t.chunks + rows, next := t.next + 1 + |rows|);
    r := Success(UploadResponse(true, name, |chunks|));
  }

  /** Storing a file record and its chunk rows with fresh ids keeps the tables consistent. */
  lemma AddUploadConsistent(t: Tables, file: CourseFile, rows: seq<ChunkRow>, path: string, content: seq<Byte>)
    requires Consistent(t)
    requires file.id == t.next && file.createdAt == t.next
    requires forall i :: 0 <= i < |rows| ==> rows[i].id == t.next + 1 + i && rows[i].fileId == t.next
    ensures Consistent(t.(storage := t.storage[path := content], files := t.files + [file], chunks := t.chunks + rows, next := t.next + 1 + |rows|))
  {
    var next := t.next + 1 + |rows|;
    BelowGrow(t.users, UserId, t.next, next);
    BelowGrow(t.courses, CourseId, t.next, next);
    BelowGrow(t.sessions, SessionId, t.next, next);
    BelowGrow(t.messages, MessageId, t.next, next);
    BelowGrow(t.messages, MessageStamp, t.next, next);
    BelowGrow(t.files, FileId, t.next, next);
    BelowGrow(t.files, FileStamp, t.next, next);
    BelowSnoc(t.files, FileId, next, file);
    BelowSnoc(t.files, FileStamp, next, file);
    IncreasingSnoc(t.files, FileTime, file);
    BelowAppend(t.chunks, ChunkId, t.next, rows, next);
    BelowAppend(t.chunks, ChunkFile, t.next, rows, next);
  }

  /** Rows whose keys are below the bound can be appended after rows whose keys are below a smaller one. */
  lemma BelowAppend<T>(s: seq<T>, key: T -> nat, bound: nat, rows: seq<T>, bound': nat)
    requires Below(s, key, bound) && bound <= bound'
    requires forall i :: 0 <= i < |rows| ==> key(rows[i]) < bound'
    ensures Below(s + rows, key, bound')
  {
    forall i | 0 <= i < |s + rows| ensures key((s + rows)[i]) < bound' {
      if i < |s| { assert (s + rows)[i] == s[i]; } else { assert (s + rows)[i] == rows[i - |s|]; }
    }
  }

  // ---------------------------------------------------------------------------
  // Properties of an upload
  // ---------------------------------------------------------------------------

  /** A rejected upload writes nothing, and it is rejected for exactly the three reasons, in this order. */
  lemma UploadRejected(t: Tables, courseId: Id, filename: Option<string>, content: seq<Byte>, services: Services)
    ensures var o := Uploaded(t, courseId, filename, content, services);
      && (o.result.Failure? ==> o.tables == t)
      && (o.result == Failure(Status(404, "Course not found")) <==> CourseById(t.courses, courseId).None?)
      && (o.result == Failure(Status(400, "Unsupported file type. Use PDF, TXT, or MD.")) <==>
            CourseById(t.courses, courseId).Some? && KindOf(StoredName(filename)).None?)
      && (o.result == Failure(Status(400, "No text content found in file")) <==>
            && CourseById(t.courses, courseId).Some? && KindOf(StoredName(filename)).Some?
            && Blank(TextOf(KindOf(StoredName(filename)).value, content, services)))
  {
  }

  /**
   * An accepted upload reports as many chunks as the text has, at least
   * one; it stores the bytes under `<course id>/<filename>`, appends one file
   * record for the course, keeps every earlier file record and chunk row,
   * and changes no other table.
   */
  lemma UploadAccepted(t: Tables, courseId: Id, filename: Option<string>, content: seq<Byte>, services: Services)
    requires Uploaded(t, courseId, filename, content, services).result.Success?
    ensures var o := Uploaded(t, courseId, filename, content, services);
      var name := StoredName(filename);
      var text := TextOf(KindOf(name).value, content, services);
      && o.result.value.success && o.result.value.filename == name
      && o.result.value.chunksCreated == |Chunking.Chunked(services.count, Chunking.ChunkSize, text)| > 0
      && o.tables.storage == t.storage[StoragePath(courseId, name) := content]
      && o.tables.files == t.files + [CourseFile(t.next, courseId, name, StoragePath(courseId, name), t.next)]
      && t.chunks <= o.tables.chunks
      && o.tables.(storage := t.storage, files := t.files, chunks := t.chunks, next := t.next) == t
  {
    var name := StoredName(filename);
    var text := TextOf(KindOf(name).value, content, services);
    Chunking.ChunkedEmptyIff(services.count, Chunking.ChunkSize, text);
  }

  /**
   * Appending rows of a new file after rows of older files: the rows of the
   * new file are exactly the appended ones.
   */
  lemma NewFileRows(old_: seq<ChunkRow>, rows: seq<ChunkRow>, fileId: Id)
    requires Below(old_, ChunkFile, fileId)
    requires forall i :: 0 <= i < |rows| ==> rows[i].fileId == fileId
    ensures forall k :: 0 <= k < |old_ + rows| ==> ((old_ + rows)[k].fileId == fileId <==> |old_| <= k)
  {
    forall k | 0 <= k < |old_ + rows|
      ensures (old_ + rows)[k].fileId == fileId <==> |old_| <= k
    {
      if k < |old_| {
        assert (old_ + rows)[k] == old_[k];
        assert ChunkFile(old_[k]) < fileId;
      } else {
        assert (old_ + rows)[k] == rows[k - |old_|];
      }
    }
  }

  /**
   * In consistent tables the chunk rows of an accepted upload's file are
   * exactly the new rows: numbered 0.. in chunk order, holding the chunks'
   * text, one per chunk that got an embedding.
   */
  lemma UploadedChunks(t: Tables, courseId: Id, name: string, content: seq<Byte>, chunks: seq<string>, embeddings: seq<Embedding>)
    requires Consistent(t)
    ensures var o := Accepted(t, courseId, name, content, chunks, embeddings);
      forall k :: 0 <= k < |o.tables.chunks| ==>
        && (o.tables.chunks[k].fileId == t.next <==> |t.chunks| <= k)
        && (|t.chunks| <= k ==>
              && k - |t.chunks| < |chunks| && k - |t.chunks| < |embeddings|
              && o.tables.chunks[k].chunkIndex == k - |t.chunks|
              && o.tables.chunks[k].content == chunks[k - |t.chunks|]
              && o.tables.chunks[k].embedding == embeddings[k - |t.chunks|])
  {
    var rows := ChunkRows(courseId, t.next, chunks, embeddings, t.next + 1);
    NewFileRows(t.chunks, rows, t.next);
    assert forall k :: |t.chunks| <= k < |t.chunks + rows| ==> (t.chunks + rows)[k] == rows[k - |t.chunks|];
  }

  /** An accepted upload keeps the tables consistent. */
  lemma UploadConsistent(t: Tables, courseId: Id, name: string, content: seq<Byte>, chunks: seq<string>, embeddings: seq<Embedding>)
    requires Consistent(t)
    ensures Consistent(Accepted(t, courseId, name, content, chunks, embeddings).tables)
  {
    var path := StoragePath(courseId, name);
    var rows := ChunkRows(courseId, t.next, chunks, embeddings, t.next + 1);
    AddUploadConsistent(t, CourseFile(t.next, courseId, name, path, t.next), rows, path, content);
  }
}
