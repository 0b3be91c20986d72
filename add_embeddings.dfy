/** The document intake page langchain/Add_Embeddings/embeddings.py: the URL
    of the remote conversion request, embedding a list of URLs, uploading a
    file with a content type guessed from its name, the single-document and
    batch upload blocks with the metadata they write, and uploading typed
    text.

    `st.session_state` becomes the fields of `AddDocumentPage`; the SAS
    token, the detected character encoding and the generated UUID are
    parameters. */
module AddEmbeddings {
  import opened Wrappers
  import opened Text
  import opened Storage
  import opened UrlQuote
  import opened Collaborators
  import BlobStorage

  // ---------------------------------------------------------------------
  // Remote conversion and URLs

  /** The URL `remote_convert_files_and_add_embeddings(process_all)` posts to. */
  function RemoteConvertUrl(url: string, processAll: bool): (r: string)
    ensures StartsWith(r, url)
    ensures processAll <==> r != url
    ensures processAll ==> r[|url|..] == "?process_all=true"
  {
    if processAll then url + "?process_all=true" else url
  }

  /** The non-empty parts of a split, in order. */
  function NonEmpty(parts: seq<string>): (r: seq<string>)
    ensures forall x :: x in r <==> x in parts && x != ""
    decreases |parts|
  {
    if parts == [] then []
    else (if parts[0] == "" then [] else [parts[0]]) + NonEmpty(parts[1..])
  }

  /** The URLs `add_urls` embeds: the non-empty lines of the text. */
  function UrlLines(urls: string): (r: seq<string>)
    ensures forall i :: 0 <= i < |r| ==> r[i] != "" && '\n' !in r[i]
  {
    var parts := Split(urls, '\n');
    assert forall i :: 0 <= i < |NonEmpty(parts)| ==> NonEmpty(parts)[i] in NonEmpty(parts);
    NonEmpty(parts)
  }

  /** The calls `add_urls` makes: one `add_embeddings_lc` per URL, in order,
      up to and including the first that raises. */
  function UrlCalls(lines: seq<string>, failing: set<Call>): seq<Call>
    decreases |lines|
  {
    if lines == [] then []
    else if AddEmbeddingsLc(lines[0]) in failing then [AddEmbeddingsLc(lines[0])]
    else [AddEmbeddingsLc(lines[0])] + UrlCalls(lines[1..], failing)
  }

  /** `add_urls` embeds the URLs in order and stops right after the first
      that raises. */
  lemma {:induction false} UrlCallsInOrder(lines: seq<string>, failing: set<Call>)
    ensures var r := UrlCalls(lines, failing);
      && |r| <= |lines|
      && (forall i :: 0 <= i < |r| ==> r[i] == AddEmbeddingsLc(lines[i]))
      && (forall i :: 0 <= i < |r| - 1 ==> r[i] !in failing)
    decreases |lines|
  {
    if lines != [] && AddEmbeddingsLc(lines[0]) !in failing {
      UrlCallsInOrder(lines[1..], failing);
      var r, t := UrlCalls(lines, failing), UrlCalls(lines[1..], failing);
      assert r == [AddEmbeddingsLc(lines[0])] + t;
      forall i | 1 <= i < |r|
        ensures r[i] == t[i - 1] && lines[i] == lines[1..][i - 1]
      {
      }
    }
  }

  /** Some call of `add_urls` raises exactly when the URL of some line does;
      when none does, it embeds every one. */
  lemma {:induction false} UrlCallsFail(lines: seq<string>, failing: set<Call>)
    ensures AnyFails(UrlCalls(lines, failing), failing)
      <==> exists i :: 0 <= i < |lines| && AddEmbeddingsLc(lines[i]) in failing
    ensures !AnyFails(UrlCalls(lines, failing), failing) ==> |UrlCalls(lines, failing)| == |lines|
    decreases |lines|
  {
    if lines != [] {
      var r := UrlCalls(lines, failing);
      if AddEmbeddingsLc(lines[0]) in failing {
        assert r[0] in failing;
      } else {
        UrlCallsFail(lines[1..], failing);
        var t := UrlCalls(lines[1..], failing);
        assert r == [AddEmbeddingsLc(lines[0])] + t;
        if AnyFails(r, failing) {
          var i :| 0 <= i < |r| && r[i] in failing;
          assert t[i - 1] in failing;
        }
        if AnyFails(t, failing) {
          var j :| 0 <= j < |t| && t[j] in failing;
          assert r[j + 1] in failing;
        }
        if exists i :: 0 <= i < |lines| && AddEmbeddingsLc(lines[i]) in failing {
          var i :| 0 <= i < |lines| && AddEmbeddingsLc(lines[i]) in failing;
          assert AddEmbeddingsLc(lines[1..][i - 1]) in failing;
        }
        if exists i :: 0 <= i < |lines[1..]| && AddEmbeddingsLc(lines[1..][i]) in failing {
          var i :| 0 <= i < |lines[1..]| && AddEmbeddingsLc(lines[1..][i]) in failing;
          assert AddEmbeddingsLc(lines[i + 1]) in failing;
        }
      }
    }
  }

  lemma NoFailsAppend(calls: seq<Call>, c: Call, failing: set<Call>)
    requires !AnyFails(calls, failing) && c !in failing
    ensures !AnyFails(calls + [c], failing)
  {
  }

  /** One line of the loop in `add_urls`: a blank line makes no call; any
      other line makes one, which ends the loop when it raises. */
  lemma UrlLinesStep(lines: seq<string>, i: nat, failing: set<Call>)
    requires i < |lines|
    ensures lines[i] == "" ==> NonEmpty(lines[i..]) == NonEmpty(lines[i + 1..])
    ensures lines[i] != "" ==>
      UrlCalls(NonEmpty(lines[i..]), failing)
        == if AddEmbeddingsLc(lines[i]) in failing then [AddEmbeddingsLc(lines[i])]
           else [AddEmbeddingsLc(lines[i])] + UrlCalls(NonEmpty(lines[i + 1..]), failing)
  {
    assert lines[i..][1..] == lines[i + 1..];
    if lines[i] != "" {
      assert NonEmpty(lines[i..]) == [lines[i]] + NonEmpty(lines[i + 1..]);
      assert NonEmpty(lines[i..])[1..] == NonEmpty(lines[i + 1..]);
    }
  }

  /** Whether one of the calls raised. */
  ghost predicate AnyFails(calls: seq<Call>, failing: set<Call>) {
    exists i :: 0 <= i < |calls| && calls[i] in failing
  }

  // ---------------------------------------------------------------------
  // Content types

  /** ASCII lower case, as `str.lower` acts on the extensions below. */
  function Lower(s: string): (r: string)
    ensures |r| == |s|
  {
    seq(|s|, i requires 0 <= i < |s| => if 'A' <= s[i] <= 'Z' then (s[i] as int + 32) as char else s[i])
  }

  /** The index of the last `c` in `s`, if any. */
  function LastIndex(s: string, c: char): (r: Option<nat>)
    ensures r.Some? ==> r.value < |s| && s[r.value] == c && c !in s[r.value + 1..]
    ensures r.None? ==> c !in s
    decreases |s|
  {
    if s == [] then None
    else if s[|s| - 1] == c then Some(|s| - 1)
    else
      var r := LastIndex(s[..|s| - 1], c);
      assert s == s[..|s| - 1] + [s[|s| - 1]];
      if r.Some? then
        assert s[r.value + 1..] == s[..|s| - 1][r.value + 1..] + [s[|s| - 1]];
        r
      else r
  }

  /** `os.path.splitext(name)[1]`: from the last dot of the base name, when
      something other than dots comes before that dot in the base name;
      otherwise empty. */
  function Extension(name: string): (ext: string)
    ensures ext == "" || (StartsWith(ext, ".") && EndsWith(name, ext))
  {
    var sep := LastIndex(name, '/');
    var start := if sep.Some? then sep.value + 1 else 0;
    var dot := LastIndex(name, '.');
    if dot.Some? && dot.value >= start && exists i :: start <= i < dot.value && name[i] != '.' then
      name[dot.value..]
    else ""
  }

  /** The part of `mimetypes`' table for the types the uploader accepts. */
  function KnownType(ext: string): Option<string> {
    if ext == ".pdf" then Some("application/pdf")
    else if ext == ".jpg" || ext == ".jpeg" then Some("image/jpeg")
    else if ext == ".png" then Some("image/png")
    else if ext == ".txt" then Some("text/plain")
    else None
  }

  /** `mimetypes.MimeTypes().guess_type(name)[0]`: the extension as written,
      then in lower case. */
  function GuessType(name: string): Option<string> {
    var ext := Extension(name);
    if KnownType(ext).Some? then KnownType(ext) else KnownType(Lower(ext))
  }

  /** `content_type + charset` of `upload_file`. */
  function ContentType(contentType: string, encoding: string): (r: string)
    ensures StartsWith(r, contentType)
    ensures r != contentType <==> contentType == "text/plain"
  {
    contentType + (if contentType == "text/plain" then "; charset=" + encoding else "")
  }

  /** A name ending in `.txt` after some character other than a dot, with no
      directory part, is guessed as `text/plain`, so its content type
      carries the detected charset. */
  lemma TextFileType(name: string, encoding: string)
    requires EndsWith(name, ".txt") && '/' !in name
    requires exists i :: 0 <= i < |name| - 4 && name[i] != '.'
    ensures GuessType(name) == Some("text/plain")
    ensures ContentType(GuessType(name).value, encoding) == "text/plain; charset=" + encoding
  {
    var dot := |name| - 4;
    assert name[dot..] == ".txt";
    assert name[dot] == '.';
    assert name[dot + 1..] == "txt";
    assert LastIndex(name, '.') == Some(dot);
    assert Extension(name) == ".txt";
  }

  // ---------------------------------------------------------------------
  // Uploads

  /** The page state the uploads change: the container's blobs and the
      session entries `filename` and `file_url`. */
  datatype UploadState = UploadState(blobs: seq<Blob>, filename: string, fileUrl: string)

  /** The state after a step, and whether the step raised. */
  datatype Step = Step(state: UploadState, raised: bool)

  /** Where the blobs live and the SAS token of the upload URLs. */
  datatype Target = Target(account: string, container: string, token: string)

  /** An uploaded file: its name, its size in bytes and the encoding
      `chardet` detects in it. */
  datatype Upload = Upload(name: string, size: nat, encoding: string)

  /** `upload_file(bytes_data, file_name)`: the session filename is recorded
      first; an unguessable type then raises (`None + str`); otherwise the
      blob is written without metadata and its URL recorded. */
  function UploadFileStep(st: UploadState, up: Upload, t: Target): (s: Step)
    ensures s.state.filename == up.name
    ensures s.raised <==> GuessType(up.name).None?
  {
    var named := st.(filename := up.name);
    match GuessType(up.name)
    case None => Step(named, true)
    case Some(contentType) =>
      var b := Blob(up.name, ContentType(contentType, up.encoding), up.size, None);
      Step(named.(blobs := Uploaded(st.blobs, b), fileUrl := BlobStorage.UploadUrl(t.account, t.container, up.name, t.token)), false)
  }

  /** The metadata the batch block writes for a `.txt` file. */
  const ConvertedOnly: Metadata := map["converted" := "true"]

  /** The metadata the single-document block writes. */
  function SingleUploadMetadata(convertedFilename: string): Metadata {
    map["converted" := "true", "embeddings_added" := "true", "converted_filename" := Quote(convertedFilename)]
  }

  /** One file of the batch block: skipped when it is the session filename;
      otherwise uploaded, and a `.txt` file marked `converted`. */
  function BatchStep(st: UploadState, up: Upload, t: Target): Step {
    if st.filename == up.name then Step(st, false)
    else
      var u := UploadFileStep(st, up, t);
      if u.raised || !EndsWith(up.name, ".txt") then u
      else Step(u.state.(blobs := Upserted(u.state.blobs, up.name, ConvertedOnly)), false)
  }

  /** The batch block over all files; an exception stops it. */
  function Batch(st: UploadState, ups: seq<Upload>, t: Target): Step
    decreases |ups|
  {
    if ups == [] then Step(st, false)
    else
      var s := BatchStep(st, ups[0], t);
      if s.raised then s else Batch(s.state, ups[1..], t)
  }

  /** No key of the batch's making is `embeddings_added`: every blob holding
      that key afterwards held it before. */
  ghost predicate NoNewKey(before: seq<Blob>, after: seq<Blob>, key: string) {
    forall n :: Find(after, n).Some? && key in MetadataOf(Find(after, n).value)
      ==> Find(before, n).Some? && key in MetadataOf(Find(before, n).value)
  }

  /** Uploading a blob without metadata adds no metadata key anywhere. */
  lemma UploadedNoNewKey(blobs: seq<Blob>, b: Blob, key: string)
    requires b.metadata == None
    ensures NoNewKey(blobs, Uploaded(blobs, b), key)
  {
  }

  /** An upsert adds no key outside its update. */
  lemma UpsertedNoNewKey(blobs: seq<Blob>, name: string, update: Metadata, key: string)
    requires key !in update
    ensures NoNewKey(blobs, Upserted(blobs, name, update), key)
  {
    forall n | Find(Upserted(blobs, name, update), n).Some?
      ensures Find(Upserted(blobs, name, update), n) == Find(blobs, n)
        || (Find(blobs, n).Some? && MetadataOf(Find(Upserted(blobs, name, update), n).value).Keys
              == MetadataOf(Find(blobs, n).value).Keys + update.Keys)
    {
      UpsertedFind(blobs, name, update, n);
    }
  }

  /** An upload that does not raise writes the file as a blob without
      metadata, under its own name, with the guessed content type. */
  lemma UploadWritesBlob(st: UploadState, up: Upload, t: Target)
    requires GuessType(up.name).Some?
    ensures var u := UploadFileStep(st, up, t);
      && !u.raised
      && Find(u.state.blobs, up.name).Some?
      && var b := Find(u.state.blobs, up.name).value;
      && b == Blob(up.name, ContentType(GuessType(up.name).value, up.encoding), up.size, None)
      && u.state.blobs == Uploaded(st.blobs, b)
  {
  }

  /** One batch step never adds `embeddings_added` to any blob. */
  lemma BatchStepNoNewKey(st: UploadState, up: Upload, t: Target)
    ensures NoNewKey(st.blobs, BatchStep(st, up, t).state.blobs, "embeddings_added")
  {
    if st.filename != up.name && GuessType(up.name).Some? {
      var u := UploadFileStep(st, up, t);
      UploadWritesBlob(st, up, t);
      UploadedNoNewKey(st.blobs, Find(u.state.blobs, up.name).value, "embeddings_added");
      if EndsWith(up.name, ".txt") {
        UpsertedNoNewKey(u.state.blobs, up.name, ConvertedOnly, "embeddings_added");
        NoNewKeyTrans(st.blobs, u.state.blobs, BatchStep(st, up, t).state.blobs, "embeddings_added");
      }
    }
  }

  /** A batch step that uploads a file leaves its metadata as
      `{'converted': 'true'}` for a `.txt` file and absent otherwise. */
  lemma BatchStepMetadata(st: UploadState, up: Upload, t: Target)
    requires st.filename != up.name && GuessType(up.name).Some?
    ensures !BatchStep(st, up, t).raised
    ensures Find(BatchStep(st, up, t).state.blobs, up.name).Some?
    ensures Find(BatchStep(st, up, t).state.blobs, up.name).value.metadata
      == if EndsWith(up.name, ".txt") then Some(ConvertedOnly) else None
  {
    var u := UploadFileStep(st, up, t);
    UploadWritesBlob(st, up, t);
    var blobs := BatchStep(st, up, t).state.blobs;
    if EndsWith(up.name, ".txt") {
      assert blobs == Upserted(u.state.blobs, up.name, ConvertedOnly);
      UpsertedFreshBlob(u.state.blobs, up.name, ConvertedOnly);
    } else {
      assert blobs == u.state.blobs;
    }
  }

  /** Metadata merged into a blob that had none is exactly that metadata. */
  lemma UpsertedFreshBlob(blobs: seq<Blob>, name: string, update: Metadata)
    requires Find(blobs, name).Some? && Find(blobs, name).value.metadata == None
    ensures Find(Upserted(blobs, name, update), name).Some?
    ensures Find(Upserted(blobs, name, update), name).value.metadata == Some(update)
  {
    UpsertedFind(blobs, name, update, name);
    assert Merge(map[], update) == update;
  }

  lemma NoNewKeyTrans(a: seq<Blob>, b: seq<Blob>, c: seq<Blob>, key: string)
    requires NoNewKey(a, b, key) && NoNewKey(b, c, key)
    ensures NoNewKey(a, c, key)
  {
  }

  /** A batch upload never sets `embeddings_added` on any blob. */
  lemma {:induction false} BatchNeverAddsEmbeddings(st: UploadState, ups: seq<Upload>, t: Target)
    ensures NoNewKey(st.blobs, Batch(st, ups, t).state.blobs, "embeddings_added")
    decreases |ups|
  {
    if ups != [] {
      var s := BatchStep(st, ups[0], t);
      BatchStepNoNewKey(st, ups[0], t);
      if !s.raised {
        BatchNeverAddsEmbeddings(s.state, ups[1..], t);
        NoNewKeyTrans(st.blobs, s.state.blobs, Batch(s.state, ups[1..], t).state.blobs, "embeddings_added");
      }
    }
  }

  /** After a single-document upload the file's metadata is exactly the three
      keys the block writes, so the listing reports it converted, embedded
      and joined to the quoted converted name. */
  lemma SingleUploadMarksBoth(blobs: seq<Blob>, b: Blob, convertedFilename: string)
    requires b.metadata == None
    ensures var md := SingleUploadMetadata(convertedFilename);
      && Find(Upserted(Uploaded(blobs, b), b.name, md), b.name) == Some(b.(metadata := Some(md)))
      && BlobStorage.Flag(Some(md), "converted")
      && BlobStorage.Flag(Some(md), "embeddings_added")
      && BlobStorage.ConvertedFilename(Some(md)) == Quote(convertedFilename)
  {
    var md := SingleUploadMetadata(convertedFilename);
    UpsertedFind(Uploaded(blobs, b), b.name, md, b.name);
    assert Merge(map[], md) == md;
    assert "converted" in md && md != map[];
  }

  /** The embedding call of the single-document block: `add_embeddings_lc`
      for a `.txt` file, `convert_file_and_add_embeddings` otherwise. */
  function EmbedCall(name: string, fileUrl: string, translate: bool): (c: Call)
    ensures c.AddEmbeddingsLc? <==> EndsWith(name, ".txt")
    ensures c.ConvertFileAndAddEmbeddings? <==> !EndsWith(name, ".txt")
  {
    if EndsWith(name, ".txt") then AddEmbeddingsLc(fileUrl) else ConvertFileAndAddEmbeddings(fileUrl, name, translate)
  }

  /** The loop of `add_urls` over the lines of the text: each non-blank
      line is embedded, and the first call that raises ends the loop. */
  method EmbedLines(services: Services, lines: seq<string>) returns (ok: bool)
    modifies services
    ensures services.calls == old(services.calls) + UrlCalls(NonEmpty(lines), services.failing)
    ensures ok <==> !AnyFails(UrlCalls(NonEmpty(lines), services.failing), services.failing)
  {
    ghost var made: seq<Call> := [];
    var i := 0;
    while i < |lines|
      invariant 0 <= i <= |lines|
      invariant services.calls == old(services.calls) + made
      invariant UrlCalls(NonEmpty(lines), services.failing) == made + UrlCalls(NonEmpty(lines[i..]), services.failing)
      invariant !AnyFails(made, services.failing)
    {
      UrlLinesStep(lines, i, services.failing);
      if lines[i] != "" {
        var call := AddEmbeddingsLc(lines[i]);
        var added := services.Invoke(call);
        if !added {
          made := made + [call];
          assert made[|made| - 1] in services.failing;
          return false;
        }
        AppendAssoc(made, [call], UrlCalls(NonEmpty(lines[i + 1..]), services.failing));
        NoFailsAppend(made, call, services.failing);
        made := made + [call];
      }
      i := i + 1;
    }
    assert lines[i..] == [];
    return true;
  }

  class AddDocumentPage {
    /** The session entry `filename` (`''` when absent). */
    var filename: string
    /** The session entry `file_url`. */
    var fileUrl: string
    const client: BlobStorage.AzureBlobStorageClient
    const services: Services

    predicate Valid()
      reads client.container
    {
      client.container.Valid()
    }

    function State(): UploadState
      reads this, client.container
    {
      UploadState(client.container.blobs, filename, fileUrl)
    }

    function Where(token: string): Target {
      Target(client.accountName, client.container.name, token)
    }

    constructor (client: BlobStorage.AzureBlobStorageClient, services: Services)
      ensures filename == "" && fileUrl == "" && this.client == client && this.services == services
    {
      filename := "";
      fileUrl := "";
      this.client := client;
      this.services := services;
    }

    /** `add_urls()` for the text `urls`. */
    method AddUrls(urls: string) returns (ok: bool)
      modifies services
      ensures services.calls == old(services.calls) + UrlCalls(UrlLines(urls), services.failing)
      ensures ok <==> forall i :: 0 <= i < |UrlLines(urls)| ==> AddEmbeddingsLc(UrlLines(urls)[i]) !in services.failing
    {
      ok := EmbedLines(services, Split(urls, '\n'));
      UrlCallsFail(UrlLines(urls), services.failing);
    }

    /** `upload_file(bytes_data, file_name)` with `token` the blob SAS token. */
    method UploadFile(up: Upload, token: string) returns (raised: bool)
      requires Valid()
      modifies this, client.container
      ensures Valid()
      ensures Step(State(), raised) == UploadFileStep(old(State()), up, Where(token))
    {
      filename := up.name;
      var contentType := GuessType(up.name);
      if contentType.None? {
        return true;
      }
      fileUrl := client.UploadFile(filename, up.size, ContentType(contentType.value, up.encoding), token);
      return false;
    }

    /** The single-document block for an uploaded file: skipped when it is
        the session filename; otherwise uploaded, embedded (directly for a
        `.txt` file, through conversion otherwise) and marked converted and
        embedded. An exception ends the block. */
    method UploadSingle(up: Upload, translate: bool, token: string) returns (r: Result<bool, string>)
      requires Valid()
      modifies this, client.container, services
      ensures Valid()
      ensures old(filename) == up.name ==>
        r == Success(false) && State() == old(State()) && services.calls == old(services.calls)
      ensures old(filename) != up.name ==>
        var u := UploadFileStep(old(State()), up, Where(token));
        if u.raised then r.Failure? && State() == u.state && services.calls == old(services.calls)
        else
          var call := EmbedCall(up.name, u.state.fileUrl, translate);
          && services.calls == old(services.calls) + [call]
          && (call in services.failing ==> r.Failure? && State() == u.state)
          && (call !in services.failing ==>
                var convertedFilename := if EndsWith(up.name, ".txt") then "" else services.convertedName(up.name);
                && r == Success(true)
                && State() == u.state.(blobs := Upserted(u.state.blobs, up.name, SingleUploadMetadata(convertedFilename))))
    {
      if filename == up.name {
        return Success(false);
      }
      var raised := UploadFile(up, token);
      if raised {
        return Failure("TypeError: unsupported content type");
      }
      var convertedFilename := "";
      if EndsWith(up.name, ".txt") {
        var ok := services.Invoke(AddEmbeddingsLc(fileUrl));
        if !ok {
          return Failure("add_embeddings_lc raised");
        }
      } else {
        var converted := services.Convert(fileUrl, filename, translate);
        if converted.None? {
          return Failure("convert_file_and_add_embeddings raised");
        }
        convertedFilename := converted.value;
      }
      var updated := client.UpsertBlobMetadata(up.name, SingleUploadMetadata(convertedFilename));
      r := Success(true);
    }

    /** The batch block for the uploaded files, in order. */
    method UploadBatch(ups: seq<Upload>, token: string) returns (raised: bool)
      requires Valid()
      modifies this, client.container
      ensures Valid()
      ensures Step(State(), raised) == Batch(old(State()), ups, Where(token))
    {
      var i := 0;
      while i < |ups|
        invariant 0 <= i <= |ups|
        invariant Valid()
        invariant Batch(old(State()), ups, Where(token)) == Batch(State(), ups[i..], Where(token))
      {
        assert ups[i..][1..] == ups[i + 1..];
        var up := ups[i];
        if filename != up.name {
          raised := UploadFile(up, token);
          if raised {
            return;
          }
          if EndsWith(up.name, ".txt") {
            var updated := client.UpsertBlobMetadata(up.name, ConvertedOnly);
          }
        }
        i := i + 1;
      }
      return false;
    }

    /** `upload_text_and_embeddings()` with `uuid` the generated UUID and
        `size` the text's length: the text is stored as `<uuid>.txt` and its
        URL embedded. */
    method UploadTextAndEmbeddings(uuid: string, size: nat, token: string) returns (ok: bool)
      requires Valid()
      modifies client.container, services
      ensures Valid()
      ensures var name := uuid + ".txt";
        && client.container.blobs == Uploaded(old(client.container.blobs), Blob(name, "text/plain; charset=utf-8", size, None))
        && services.calls == old(services.calls) + [AddEmbeddingsLc(BlobStorage.UploadUrl(client.accountName, client.container.name, name, token))]
      ensures ok == (AddEmbeddingsLc(BlobStorage.UploadUrl(client.accountName, client.container.name, uuid + ".txt", token)) !in services.failing)
    {
      var fileName := uuid + ".txt";
      var sourceUrl := client.UploadFile(fileName, size, "text/plain; charset=utf-8", token);
      ok := services.Invoke(AddEmbeddingsLc(sourceUrl));
    }
  }
}
