/** The deletion callbacks of code/Query_Database/doc_find.py: delete one
    file's embeddings by its converted text name, delete a file with its
    converted copy and its embeddings, and delete every listed file.

    `st.session_state` becomes the fields of `Session`: the cached file
    listing `data_files`, the cached embeddings table
    `data_files_embeddings` (absent until first loaded), the selected
    `file_and_embeddings_to_drop`, and the `st.error` messages shown. */
module DocFind {
  import opened Wrappers
  import opened Storage
  import opened Vectors
  import opened UrlQuote
  import BlobStorage

  type FileRecord = BlobStorage.FileRecord

  /** `get_all_documents(k=1000)` */
  const DocumentsLimit: nat := 1000

  /** The table `get_all_documents(k=1000)` returns for a store. */
  function Top(rows: seq<Row>): (t: seq<Row>)
    ensures |t| <= |rows| && |t| <= DocumentsLimit && t == rows[..|t|]
    ensures |rows| <= DocumentsLimit ==> t == rows
  {
    rows[..if DocumentsLimit < |rows| then DocumentsLimit else |rows|]
  }

  /** The cached table once loaded: the cache if present, else freshly read. */
  function Loaded(cache: Option<seq<Row>>, rows: seq<Row>): seq<Row> {
    if cache.Some? then cache.value else Top(rows)
  }

  /** `'converted/' + name + '.txt'`: the converted copy of a file, and the
      filename its embeddings are stored under. */
  function ConvertedText(name: string): (r: string)
    ensures |r| == |name| + 14 && r != name
  {
    "converted/" + name + ".txt"
  }

  /** `next((d for d in data_files if d['filename'] == name), None)` */
  function FindRecord(files: seq<FileRecord>, name: string): (r: Option<FileRecord>)
    ensures r.Some? <==> exists i :: 0 <= i < |files| && files[i].filename == name
    ensures r.Some? ==> r.value in files && r.value.filename == name
    decreases |files|
  {
    if files == [] then None
    else if files[0].filename == name then Some(files[0])
    else
      assert forall i :: 1 <= i < |files| ==> files[i] == files[1..][i - 1];
      FindRecord(files[1..], name)
  }

  /** `[d for d in data_files if d['filename'] != '{filename}']`: the
      comparison is with the literal text `{filename}`. */
  function WithoutLiteral(files: seq<FileRecord>): (r: seq<FileRecord>)
    ensures forall d :: d in r <==> d in files && d.filename != "{filename}"
    decreases |files|
  {
    if files == [] then []
    else (if files[0].filename == "{filename}" then [] else [files[0]]) + WithoutLiteral(files[1..])
  }

  /** Unless a file is literally named `{filename}`, the final filter keeps
      the listing as it was, the file just deleted included. */
  lemma {:induction false} LiteralFilterKeepsListing(files: seq<FileRecord>)
    requires forall i :: 0 <= i < |files| ==> files[i].filename != "{filename}"
    ensures WithoutLiteral(files) == files
    decreases |files|
  {
    if files != [] {
      LiteralFilterKeepsListing(files[1..]);
      assert [files[0]] + files[1..] == files;
    }
  }

  /** The blob deletions of `delete_file_and_embeddings`: the source blob,
      then the converted copy when the record says `converted`. */
  function Cascade(blobs: seq<Blob>, name: string, converted: bool): seq<Blob> {
    var afterSource := Removed(blobs, name);
    if converted then Removed(afterSource, ConvertedText(name)) else afterSource
  }

  /** The `st.error` messages of the cascade: one per refused deletion. */
  function CascadeErrors(blobs: seq<Blob>, name: string, converted: bool): seq<string> {
    (if HasBlob(blobs, name) then [] else ["Error deleting file: " + name])
    + (if converted && !HasBlob(Removed(blobs, name), ConvertedText(name))
       then ["Error deleting file : " + ConvertedText(name)] else [])
  }

  /** The cascade always removes the source blob; it removes the converted
      copy exactly when the record says `converted`; it touches no other
      blob; and a refused source deletion does not stop the converted one. */
  lemma CascadeEffect(blobs: seq<Blob>, name: string, converted: bool, n: string)
    ensures var after := Cascade(blobs, name, converted);
      && !HasBlob(after, name)
      && (converted ==> !HasBlob(after, ConvertedText(name)))
      && (!converted ==> Find(after, ConvertedText(name)) == Find(blobs, ConvertedText(name)))
      && (n != name && n != ConvertedText(name) ==> Find(after, n) == Find(blobs, n))
  {
  }

  /** Embeddings are looked up under the URL-quoted name; for a name made
      only of characters `quote` keeps, that is the converted copy's name. */
  lemma EmbeddingsTargetOfSafeName(name: string)
    requires forall i :: 0 <= i < |name| ==> Safe(name[i])
    ensures ConvertedText(Quote(name)) == ConvertedText(name)
  {
    QuoteSafe(name);
  }

  /** `delete_file_and_embeddings` falls back to the selection for an empty name. */
  function Target(filename: string, fileToDrop: string): string {
    if filename == "" then fileToDrop else filename
  }

  /** No file of the listing is named literally `{filename}`. */
  predicate NoLiteralName(files: seq<FileRecord>) {
    forall i :: 0 <= i < |files| ==> files[i].filename != "{filename}"
  }

  /** The state the deletion callbacks act on: the container's blobs, the
      store's rows, the cached embeddings table, the `st.error` messages
      and the cached listing `data_files`. */
  datatype Snapshot = Snapshot(blobs: seq<Blob>, rows: seq<Row>, embeddings: Option<seq<Row>>,
                               errors: seq<string>, dataFiles: seq<FileRecord>)

  /** The state after a callback, and whether it raised. */
  datatype Outcome = Outcome(after: Snapshot, raised: bool)

  /** `delete_file_and_embeddings(filename)` on a state: the cache is loaded;
      a name with no record raises; otherwise the blob cascade runs, the
      file's embeddings go when `embeddings_added`, and the listing is
      filtered on the literal. */
  function DeleteOne(s: Snapshot, filename: string, fileToDrop: string): Outcome {
    var name := Target(filename, fileToDrop);
    var cache := Loaded(s.embeddings, s.rows);
    match FindRecord(s.dataFiles, name)
    case None => Outcome(s.(embeddings := Some(cache)), true)
    case Some(rec) =>
      var t := if rec.embeddingsAdded then FileRowsDeleted(s.rows, cache, ConvertedText(Quote(name)))
               else Tables(s.rows, cache);
      Outcome(Snapshot(Cascade(s.blobs, name, rec.converted), t.store, Some(t.cache),
                       s.errors + CascadeErrors(s.blobs, name, rec.converted), WithoutLiteral(s.dataFiles)),
              false)
  }

  /** `delete_all_files_and_embeddings()` on a state: `delete_file_and_embeddings`
      for each record of `files` in turn, until one raises. */
  function DeleteAll(s: Snapshot, files: seq<FileRecord>, fileToDrop: string): Outcome
    decreases |files|
  {
    if files == [] then Outcome(s, false)
    else
      var step := DeleteOne(s, files[0].filename, fileToDrop);
      if step.raised then step else DeleteAll(step.after, files[1..], fileToDrop)
  }

  /** `errors` is `before` with messages appended. */
  predicate Extends(errors: seq<string>, before: seq<string>) {
    |before| <= |errors| && errors[..|before|] == before
  }

  /** What one callback does and does not do: it raises exactly when the
      name has no record, and then changes nothing but the loaded cache;
      otherwise the file's blob is gone and, when `embeddings_added`, so
      are its cached rows. No blob comes back, blobs of other names are
      untouched, errors are only appended, rows only leave the store and
      the cache, and an ordinary listing is kept. */
  lemma DeleteOneEffect(s: Snapshot, filename: string, fileToDrop: string)
    ensures var o := DeleteOne(s, filename, fileToDrop);
      var name := Target(filename, fileToDrop);
      var rec := FindRecord(s.dataFiles, name);
      && (o.raised <==> rec.None?)
      && (o.raised ==> o.after.blobs == s.blobs && o.after.rows == s.rows
                       && o.after.errors == s.errors && o.after.dataFiles == s.dataFiles)
      && (!o.raised ==> !HasBlob(o.after.blobs, name))
      && (!o.raised && rec.value.converted ==> !HasBlob(o.after.blobs, ConvertedText(name)))
      && o.after.embeddings.Some?
      && (!o.raised && rec.value.embeddingsAdded ==>
            forall x :: x in o.after.embeddings.value ==> x.filename != ConvertedText(Quote(name)))
      && (forall x :: x in o.after.embeddings.value ==> x in Loaded(s.embeddings, s.rows))
      && (forall x :: x in o.after.rows ==> x in s.rows)
      && (forall n :: !HasBlob(s.blobs, n) ==> !HasBlob(o.after.blobs, n))
      && (forall n :: n != name && n != ConvertedText(name) ==> Find(o.after.blobs, n) == Find(s.blobs, n))
      && Extends(o.after.errors, s.errors)
      && (NoLiteralName(s.dataFiles) ==> o.after.dataFiles == s.dataFiles)
  {
    var name := Target(filename, fileToDrop);
    var rec := FindRecord(s.dataFiles, name);
    if rec.Some? {
      forall n | true
        ensures !HasBlob(Cascade(s.blobs, name, rec.value.converted), name)
        ensures rec.value.converted ==> !HasBlob(Cascade(s.blobs, name, rec.value.converted), ConvertedText(name))
        ensures !HasBlob(s.blobs, n) ==> !HasBlob(Cascade(s.blobs, name, rec.value.converted), n)
        ensures n != name && n != ConvertedText(name) ==> Find(Cascade(s.blobs, name, rec.value.converted), n) == Find(s.blobs, n)
      {
        CascadeEffect(s.blobs, name, rec.value.converted, n);
      }
      var errors := s.errors + CascadeErrors(s.blobs, name, rec.value.converted);
      assert errors[..|s.errors|] == s.errors;
      if NoLiteralName(s.dataFiles) {
        LiteralFilterKeepsListing(s.dataFiles);
      }
    }
  }

  /** A name none of `files` can delete: neither a target nor its converted copy. */
  predicate Untouched(n: string, files: seq<FileRecord>, fileToDrop: string) {
    forall d :: d in files ==> n != Target(d.filename, fileToDrop) && n != ConvertedText(Target(d.filename, fileToDrop))
  }

  /** Over the whole loop: no blob comes back, names no callback can reach
      keep their blob, errors are only appended, and rows only leave the
      store and the cache. */
  lemma {:induction false} DeleteAllKeeps(s: Snapshot, files: seq<FileRecord>, fileToDrop: string)
    ensures var o := DeleteAll(s, files, fileToDrop);
      && (forall n :: !HasBlob(s.blobs, n) ==> !HasBlob(o.after.blobs, n))
      && (forall n :: Untouched(n, files, fileToDrop) ==> Find(o.after.blobs, n) == Find(s.blobs, n))
      && Extends(o.after.errors, s.errors)
      && (forall x :: x in o.after.rows ==> x in s.rows)
      && (files != [] ==> o.after.embeddings.Some?
                          && forall x :: x in o.after.embeddings.value ==> x in Loaded(s.embeddings, s.rows))
    decreases |files|
  {
    if files != [] {
      var step := DeleteOne(s, files[0].filename, fileToDrop);
      DeleteOneEffect(s, files[0].filename, fileToDrop);
      if !step.raised {
        var s1 := step.after;
        var o := DeleteAll(s1, files[1..], fileToDrop);
        DeleteAllKeeps(s1, files[1..], fileToDrop);
        forall n | Untouched(n, files, fileToDrop)
          ensures Find(o.after.blobs, n) == Find(s.blobs, n)
        {
          assert files[0] in files;
          assert Untouched(n, files[1..], fileToDrop) by {
            forall d | d in files[1..] ensures d in files {
            }
          }
        }
        assert o.after.errors[..|s.errors|] == s.errors by {
          assert o.after.errors[..|s1.errors|][..|s.errors|] == s1.errors[..|s.errors|];
        }
        if files[1..] == [] {
          assert o == step;
        }
      }
    }
  }

  /** When no callback raised, no listed file's blob is left. */
  lemma {:induction false} DeleteAllRemovesSources(s: Snapshot, files: seq<FileRecord>, fileToDrop: string)
    ensures var o := DeleteAll(s, files, fileToDrop);
      !o.raised ==> forall d :: d in files ==> !HasBlob(o.after.blobs, Target(d.filename, fileToDrop))
    decreases |files|
  {
    if files != [] {
      var step := DeleteOne(s, files[0].filename, fileToDrop);
      DeleteOneEffect(s, files[0].filename, fileToDrop);
      if !step.raised {
        DeleteAllRemovesSources(step.after, files[1..], fileToDrop);
        DeleteAllKeeps(step.after, files[1..], fileToDrop);
        forall d | d in files
          ensures d == files[0] || d in files[1..]
        {
          assert exists i :: 0 <= i < |files| && files[i] == d;
          var i :| 0 <= i < |files| && files[i] == d;
          if i > 0 {
            assert files[1..][i - 1] == d;
          }
        }
      }
    }
  }

  /** Every record of `files` is in the listing, none has an empty name and
      no listed name is literally `{filename}`. */
  predicate PlainListing(dataFiles: seq<FileRecord>, files: seq<FileRecord>) {
    && NoLiteralName(dataFiles)
    && forall d :: d in files ==> d in dataFiles && d.filename != ""
  }

  /** For a plain listing no callback raises and the listing is kept; each
      listed file's blob is gone, and for the record the lookup finds, so
      is its converted copy when `converted` and its cached rows when
      `embeddings_added`. */
  lemma {:induction false} DeleteAllPlain(s: Snapshot, files: seq<FileRecord>, fileToDrop: string)
    requires PlainListing(s.dataFiles, files)
    ensures var o := DeleteAll(s, files, fileToDrop);
      && !o.raised && o.after.dataFiles == s.dataFiles
      && (forall d :: d in files ==> !HasBlob(o.after.blobs, d.filename))
      && (forall d :: d in files && FindRecord(s.dataFiles, d.filename) == Some(d) && d.converted ==>
            !HasBlob(o.after.blobs, ConvertedText(d.filename)))
      && (files != [] ==> o.after.embeddings.Some?)
      && (forall d :: d in files && FindRecord(s.dataFiles, d.filename) == Some(d) && d.embeddingsAdded ==>
            forall x :: x in o.after.embeddings.value ==> x.filename != ConvertedText(Quote(d.filename)))
    decreases |files|
  {
    if files != [] {
      var d0 := files[0];
      assert d0 in files;
      var step := DeleteOne(s, d0.filename, fileToDrop);
      DeleteOneEffect(s, d0.filename, fileToDrop);
      assert FindRecord(s.dataFiles, d0.filename).Some? by {
        var i :| 0 <= i < |s.dataFiles| && s.dataFiles[i] == d0;
      }
      var s1 := step.after;
      assert PlainListing(s1.dataFiles, files[1..]) by {
        forall d | d in files[1..] ensures d in files {
        }
      }
      DeleteAllPlain(s1, files[1..], fileToDrop);
      DeleteAllKeeps(s1, files[1..], fileToDrop);
      var o := DeleteAll(s1, files[1..], fileToDrop);
      assert o == DeleteAll(s, files, fileToDrop);
      assert o.after.embeddings.Some?;
      forall d | d in files
        ensures d == d0 || d in files[1..]
      {
        var i :| 0 <= i < |files| && files[i] == d;
        if i > 0 {
          assert files[1..][i - 1] == d;
        }
      }
    }
  }

  /** The three promises of the delete-all callback, read off the fold. */
  lemma DeleteAllSummary(s: Snapshot, files: seq<FileRecord>, fileToDrop: string)
    ensures var o := DeleteAll(s, files, fileToDrop);
      && (forall n :: !HasBlob(s.blobs, n) ==> !HasBlob(o.after.blobs, n))
      && (!o.raised ==> forall d :: d in files ==> !HasBlob(o.after.blobs, Target(d.filename, fileToDrop)))
      && ((forall d :: d in files ==> d.filename != "" && d.filename != "{filename}") && files == s.dataFiles ==> !o.raised)
  {
    DeleteAllKeeps(s, files, fileToDrop);
    DeleteAllRemovesSources(s, files, fileToDrop);
    if (forall d :: d in files ==> d.filename != "" && d.filename != "{filename}") && files == s.dataFiles {
      assert PlainListing(files, files) by {
        forall k | 0 <= k < |files| ensures files[k].filename != "{filename}" {
          assert files[k] in files;
        }
      }
      DeleteAllPlain(s, files, fileToDrop);
    }
  }

  class Session {
    var dataFiles: seq<FileRecord>
    var embeddings: Option<seq<Row>>
    /** The selection `file_and_embeddings_to_drop`. */
    const fileToDrop: string
    var errors: seq<string>
    const client: BlobStorage.AzureBlobStorageClient
    const store: VectorStore

    predicate Valid()
      reads client.container
    {
      client.container.Valid()
    }

    /** The session's state together with the container's and the store's. */
    function Current(): Snapshot
      reads this, client.container, store
    {
      Snapshot(client.container.blobs, store.rows, embeddings, errors, dataFiles)
    }

    constructor (dataFiles: seq<FileRecord>, embeddings: Option<seq<Row>>, fileToDrop: string,
                 client: BlobStorage.AzureBlobStorageClient, store: VectorStore)
      ensures this.dataFiles == dataFiles && this.embeddings == embeddings && this.fileToDrop == fileToDrop
      ensures errors == [] && this.client == client && this.store == store
    {
      this.dataFiles := dataFiles;
      this.embeddings := embeddings;
      this.fileToDrop := fileToDrop;
      errors := [];
      this.client := client;
      this.store := store;
    }

    /** `if 'data_files_embeddings' not in st.session_state: ... get_all_documents(k=1000)` */
    method LoadEmbeddings()
      modifies this
      ensures embeddings == Some(Loaded(old(embeddings), store.rows))
      ensures dataFiles == old(dataFiles) && errors == old(errors)
    {
      if embeddings.None? {
        var table := store.GetAllDocuments(DocumentsLimit);
        embeddings := Some(table);
      }
    }

    /** `delete_embeddings_of_file(file_to_delete)`. Its loop runs over the
        single extension `'.txt'`. */
    method DeleteEmbeddingsOfFile(fileToDelete: string)
      modifies this, store
      ensures var t := FileRowsDeleted(old(store.rows), Loaded(old(embeddings), old(store.rows)), ConvertedText(fileToDelete));
        store.rows == t.store && embeddings == Some(t.cache)
      ensures dataFiles == old(dataFiles) && errors == old(errors)
    {
      LoadEmbeddings();
      var cache := embeddings.value;
      if |cache| == 0 {
        return;
      }
      var target := ConvertedText(fileToDelete);
      var embeddingsToDelete := KeysOf(cache, target);
      if |embeddingsToDelete| > 0 {
        store.DeleteKeys(embeddingsToDelete);
        embeddings := Some(RowsNotOf(cache, target));
      }
    }

    /** The two deletions of `delete_file_and_embeddings`: the source blob,
        then the converted copy when `converted`; each refusal is reported
        with `st.error` and does not stop what follows. */
    method DeleteBlobs(sourceFile: string, converted: bool)
      requires Valid()
      modifies this, client.container
      ensures Valid()
      ensures client.container.blobs == Cascade(old(client.container.blobs), sourceFile, converted)
      ensures errors == old(errors) + CascadeErrors(old(client.container.blobs), sourceFile, converted)
      ensures dataFiles == old(dataFiles) && embeddings == old(embeddings)
      ensures !HasBlob(client.container.blobs, sourceFile)
      ensures forall n :: !HasBlob(old(client.container.blobs), n) ==> !HasBlob(client.container.blobs, n)
    {
      ghost var before := client.container.blobs;
      forall n | true
        ensures !HasBlob(Cascade(before, sourceFile, converted), sourceFile)
        ensures !HasBlob(before, n) ==> !HasBlob(Cascade(before, sourceFile, converted), n)
      {
        CascadeEffect(before, sourceFile, converted, n);
      }
      var deleted := client.DeleteFile(sourceFile);
      if !deleted {
        errors := errors + ["Error deleting file: " + sourceFile];
      }
      if converted {
        var convertedFile := ConvertedText(sourceFile);
        deleted := client.DeleteFile(convertedFile);
        if !deleted {
          errors := errors + ["Error deleting file : " + convertedFile];
        }
      }
    }

    /** `delete_file_and_embeddings(filename)`. A name with no record gives
        `None`, and `len(None)` raises before anything is deleted. */
    method DeleteFileAndEmbeddings(filename: string) returns (r: Result<(), string>)
      requires Valid()
      modifies this, store, client.container
      ensures Valid()
      ensures Outcome(Current(), r.Failure?) == DeleteOne(old(Current()), filename, fileToDrop)
      ensures r.Success? <==> FindRecord(old(dataFiles), Target(filename, fileToDrop)).Some?
      ensures r.Success? ==> !HasBlob(client.container.blobs, Target(filename, fileToDrop))
      ensures forall n :: !HasBlob(old(client.container.blobs), n) ==> !HasBlob(client.container.blobs, n)
      ensures NoLiteralName(old(dataFiles)) ==> dataFiles == old(dataFiles)
    {
      ghost var before := Current();
      LoadEmbeddings();
      var name := if filename == "" then fileToDrop else filename;
      var fileDict := FindRecord(dataFiles, name);
      if fileDict.None? {
        DeleteOneEffect(before, filename, fileToDrop);
        return Failure("TypeError: object of type 'NoneType' has no len()");
      }
      DeleteBlobs(fileDict.value.filename, fileDict.value.converted);
      if fileDict.value.embeddingsAdded {
        DeleteEmbeddingsOfFile(Quote(name));
      }
      dataFiles := WithoutLiteral(dataFiles);
      r := Success(());
      DeleteOneEffect(before, filename, fileToDrop);
    }

    /** `delete_all_files_and_embeddings()`: the callback for each file of
        the listing as it was when the loop started; an exception stops the
        loop. Deleting never brings a blob back, and when every call
        succeeded, no listed file's source blob is left. */
    method DeleteAllFilesAndEmbeddings() returns (r: Result<(), string>)
      requires Valid()
      modifies this, store, client.container
      ensures Valid()
      ensures Outcome(Current(), r.Failure?) == DeleteAll(old(Current()), old(dataFiles), fileToDrop)
      ensures forall n :: !HasBlob(old(client.container.blobs), n) ==> !HasBlob(client.container.blobs, n)
      ensures r.Success? ==> forall d :: d in old(dataFiles) ==>
        !HasBlob(client.container.blobs, Target(d.filename, fileToDrop))
      ensures (forall d :: d in old(dataFiles) ==> d.filename != "" && d.filename != "{filename}") ==> r.Success?
    {
      var filesList := dataFiles;
      ghost var start := Current();
      var i := 0;
      r := Success(());
      while i < |filesList| && r.Success?
        invariant 0 <= i <= |filesList|
        invariant Valid()
        invariant r.Success? ==> DeleteAll(start, filesList, fileToDrop) == DeleteAll(Current(), filesList[i..], fileToDrop)
        invariant r.Failure? ==> DeleteAll(start, filesList, fileToDrop) == Outcome(Current(), true)
      {
        var name := filesList[i].filename;
        r := DeleteFileAndEmbeddings(name);
        assert filesList[i..][1..] == filesList[i + 1..];
        i := i + 1;
      }
      DeleteAllSummary(start, filesList, fileToDrop);
    }
  }
}
