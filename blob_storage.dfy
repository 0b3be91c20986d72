/** `AzureBlobStorageClient` of langchain/Process_Docs/blob_storage.py: the
    document listing with its flags and its join to converted copies, the
    metadata upsert, the SAS URL shapes, upload and delete.

    SAS tokens are signed by the service with a clock-based expiry; here
    they are opaque strings passed in. */
module BlobStorage {
  import opened Wrappers
  import opened Text
  import opened Storage
  import UrlQuote

  /** A record of `get_all_files` as returned: `converted_filename` has been
      popped, so the record has no such field. */
  datatype FileRecord = FileRecord(
    filename: string,
    converted: bool,
    embeddingsAdded: bool,
    fullpath: string,
    convertedPath: string)

  /** A record as the first loop appends it, `converted_filename` still in it. */
  datatype Listed = Listed(record: FileRecord, convertedFilename: string)

  /** `blob.metadata.get(key, 'false') == 'true' if blob.metadata else False`;
      an empty dictionary counts as no metadata. */
  function Flag(md: Option<Metadata>, key: string): bool {
    if md.Some? && md.value != map[] then (if key in md.value then md.value[key] else "false") == "true"
    else false
  }

  /** A flag is set exactly when the metadata holds the string `'true'` for it. */
  lemma FlagMeaning(md: Option<Metadata>, key: string)
    ensures Flag(md, key) <==> md.Some? && key in md.value && md.value[key] == "true"
  {
  }

  /** `blob.metadata.get('converted_filename', '') if blob.metadata else ''` */
  function ConvertedFilename(md: Option<Metadata>): string {
    if md.Some? && md.value != map[] then (if "converted_filename" in md.value then md.value["converted_filename"] else "")
    else ""
  }

  /** `f"https://{account}.blob.core.windows.net/{container}/{name}"` */
  function BlobUrl(account: string, container: string, name: string): string {
    "https://" + account + ".blob.core.windows.net/" + container + "/" + name
  }

  /** `blob_client.url`: the container name and the blob name each go
      through `quote`, so characters outside the safe set come out as
      `%XX` escapes. */
  function ClientUrl(account: string, container: string, name: string): string {
    "https://" + account + ".blob.core.windows.net/" + UrlQuote.Quote(container) + "/" + UrlQuote.Quote(name)
  }

  /** What `upload_file` returns: the client URL, `?`, the blob token. */
  function UploadUrl(account: string, container: string, name: string, token: string): string {
    ClientUrl(account, container, name) + "?" + token
  }

  /** For names made of safe characters alone the client URL is the one
      the f-string builds, so `upload_file` and `get_blob_sas` agree. */
  lemma UploadUrlOfSafeNames(account: string, container: string, name: string, token: string)
    requires forall i :: 0 <= i < |container| ==> UrlQuote.Safe(container[i])
    requires forall i :: 0 <= i < |name| ==> UrlQuote.Safe(name[i])
    ensures UploadUrl(account, container, name, token) == BlobSas(account, container, name, token)
  {
    UrlQuote.QuoteSafe(container);
    UrlQuote.QuoteSafe(name);
  }

  /** A blob name holding any character outside the safe set (a space,
      say) comes out escaped in the URL `upload_file` returns, so that URL
      is not the one the f-string builds. */
  lemma UploadUrlEscapes(account: string, container: string, name: string, token: string)
    requires exists i :: 0 <= i < |name| && !UrlQuote.Safe(name[i])
    ensures UploadUrl(account, container, name, token) != BlobSas(account, container, name, token)
  {
    UrlQuote.QuoteLonger(container);
    UrlQuote.QuoteLonger(name);
    assert |UploadUrl(account, container, name, token)| > |BlobSas(account, container, name, token)|;
  }

  /** `get_container_sas`: the token behind a `?`. */
  function ContainerSas(token: string): (r: string)
    ensures |r| == |token| + 1 && r[0] == '?' && r[1..] == token
  {
    "?" + token
  }

  /** `get_blob_sas(file_name)`: the blob's URL, `?`, the token. */
  function BlobSas(account: string, container: string, name: string, token: string): string {
    BlobUrl(account, container, name) + "?" + token
  }

  /** The listing's `fullpath` of a blob is the URL `get_blob_sas` builds for
      it, with the container token in place of the blob token. */
  lemma FullpathIsBlobSas(b: Blob, account: string, container: string, sas: string)
    ensures ListedOf(b, account, container, sas).record.fullpath == BlobSas(account, container, b.name, sas)
    ensures StartsWith(BlobSas(account, container, b.name, sas), BlobUrl(account, container, b.name) + "?")
  {
  }

  /** The entry the first loop appends for a blob outside `converted/`. */
  function ListedOf(b: Blob, account: string, container: string, sas: string): Listed {
    Listed(
      FileRecord(b.name, Flag(b.metadata, "converted"), Flag(b.metadata, "embeddings_added"),
                 BlobUrl(account, container, b.name) + "?" + sas, ""),
      ConvertedFilename(b.metadata))
  }

  /** The blobs outside `converted/`, in listing order. */
  function Sources(blobs: seq<Blob>): (r: seq<Blob>)
    ensures forall x :: x in r <==> x in blobs && !IsConverted(x.name)
    decreases |blobs|
  {
    if blobs == [] then []
    else
      var last := blobs[|blobs| - 1];
      Sources(blobs[..|blobs| - 1]) + (if IsConverted(last.name) then [] else [last])
  }

  /** The first loop's `files`. */
  function ListedFiles(blobs: seq<Blob>, account: string, container: string, sas: string): (r: seq<Listed>)
    ensures |r| == |Sources(blobs)|
    ensures forall i :: 0 <= i < |r| ==> r[i] == ListedOf(Sources(blobs)[i], account, container, sas)
    decreases |blobs|
  {
    if blobs == [] then []
    else
      var last := blobs[|blobs| - 1];
      ListedFiles(blobs[..|blobs| - 1], account, container, sas)
        + (if IsConverted(last.name) then [] else [ListedOf(last, account, container, sas)])
  }

  /** The first loop's `converted_files`: every `converted/` blob's name to its URL. */
  function ConvertedUrls(blobs: seq<Blob>, account: string, container: string, sas: string): (m: map<string, string>)
    ensures forall k :: k in m <==> IsConverted(k) && HasBlob(blobs, k)
    ensures forall k :: k in m ==> m[k] == BlobUrl(account, container, k) + "?" + sas
    decreases |blobs|
  {
    if blobs == [] then map[]
    else
      var init := blobs[..|blobs| - 1];
      var last := blobs[|blobs| - 1];
      assert forall k :: HasBlob(blobs, k) <==> HasBlob(init, k) || last.name == k by {
        forall k ensures HasBlob(blobs, k) <==> HasBlob(init, k) || last.name == k {
          if HasBlob(init, k) {
            var i :| 0 <= i < |init| && init[i].name == k;
            assert blobs[i] == init[i];
          }
          if HasBlob(blobs, k) && last.name != k {
            var i :| 0 <= i < |blobs| && blobs[i].name == k;
            assert init[i] == blobs[i];
          }
        }
      }
      var m := ConvertedUrls(init, account, container, sas);
      if IsConverted(last.name) then m[last.name := BlobUrl(account, container, last.name) + "?" + sas] else m
  }

  /** The second loop on one record: pop `converted_filename`; when it names
      a converted blob, mark the record converted and give it that URL. */
  function Joined(l: Listed, converted: map<string, string>): FileRecord {
    if l.convertedFilename in converted then l.record.(converted := true, convertedPath := converted[l.convertedFilename])
    else l.record
  }

  /** One more blob of the listing: the first loop's two results grow by it. */
  lemma ListingStep(blobs: seq<Blob>, i: nat, account: string, container: string, sas: string)
    requires i < |blobs|
    ensures var b := blobs[i];
      && ListedFiles(blobs[..i + 1], account, container, sas)
         == ListedFiles(blobs[..i], account, container, sas)
            + (if IsConverted(b.name) then [] else [ListedOf(b, account, container, sas)])
      && ConvertedUrls(blobs[..i + 1], account, container, sas)
         == (var m := ConvertedUrls(blobs[..i], account, container, sas);
             if IsConverted(b.name) then m[b.name := BlobUrl(account, container, b.name) + "?" + sas] else m)
  {
    var p := blobs[..i + 1];
    assert p[..|p| - 1] == blobs[..i];
    assert p[|p| - 1] == blobs[i];
  }

  /** What `get_all_files` returns for a listing. */
  function AllFiles(blobs: seq<Blob>, account: string, container: string, sas: string): seq<FileRecord> {
    var listed := ListedFiles(blobs, account, container, sas);
    var converted := ConvertedUrls(blobs, account, container, sas);
    seq(|listed|, i requires 0 <= i < |listed| => Joined(listed[i], converted))
  }

  /** `get_all_files` hides every `converted/` blob and returns one record per
      other blob, in listing order. */
  lemma AllFilesListing(blobs: seq<Blob>, account: string, container: string, sas: string)
    ensures var files := AllFiles(blobs, account, container, sas);
      && |files| == |Sources(blobs)|
      && (forall i :: 0 <= i < |files| ==> files[i].filename == Sources(blobs)[i].name)
      && (forall i :: 0 <= i < |files| ==> !IsConverted(files[i].filename))
  {
    var s := Sources(blobs);
    assert forall i :: 0 <= i < |s| ==> s[i] in s;
  }

  /** Each record's flags and converted path: `embeddings_added` is the
      metadata flag; the record is joined (marked converted, given the
      converted blob's URL) exactly when its `converted_filename` names a
      `converted/` blob of the same listing, and otherwise keeps the
      metadata flag and an empty path. */
  lemma AllFilesJoin(blobs: seq<Blob>, account: string, container: string, sas: string, i: nat)
    requires i < |Sources(blobs)|
    ensures var b := Sources(blobs)[i];
      var f := AllFiles(blobs, account, container, sas)[i];
      var cf := ConvertedFilename(b.metadata);
      && f.embeddingsAdded == Flag(b.metadata, "embeddings_added")
      && f.fullpath == BlobUrl(account, container, b.name) + "?" + sas
      && (if IsConverted(cf) && HasBlob(blobs, cf)
          then f.converted && f.convertedPath == BlobUrl(account, container, cf) + "?" + sas
          else f.converted == Flag(b.metadata, "converted") && f.convertedPath == "")
  {
  }

  /** The join only ever raises `converted`; it never clears it. */
  lemma JoinNeverClearsConverted(blobs: seq<Blob>, account: string, container: string, sas: string, i: nat)
    requires i < |Sources(blobs)|
    ensures Flag(Sources(blobs)[i].metadata, "converted") ==> AllFiles(blobs, account, container, sas)[i].converted
  {
    AllFilesJoin(blobs, account, container, sas, i);
  }

  /** The second loop of `get_all_files`: each record in turn loses its
      `converted_filename` and, when that names a converted blob, is joined
      to it. */
  method JoinConverted(listed: seq<Listed>, converted: map<string, string>) returns (files: seq<FileRecord>)
    ensures |files| == |listed|
    ensures forall k :: 0 <= k < |listed| ==> files[k] == Joined(listed[k], converted)
  {
    files := [];
    var j := 0;
    while j < |listed|
      invariant 0 <= j <= |listed|
      invariant |files| == j
      invariant forall k :: 0 <= k < j ==> files[k] == Joined(listed[k], converted)
    {
      var record := listed[j].record;
      var convertedFilename := listed[j].convertedFilename;
      if convertedFilename in converted {
        record := record.(converted := true, convertedPath := converted[convertedFilename]);
      }
      files := files + [record];
      j := j + 1;
    }
  }

  class AzureBlobStorageClient {
    const accountName: string
    /** The container named by `container_name`, as the service holds it. */
    const container: Container

    constructor (accountName: string, container: Container)
      ensures this.accountName == accountName && this.container == container
    {
      this.accountName := accountName;
      this.container := container;
    }

    /** `get_all_files()` with `sas` the container token. */
    method GetAllFiles(sas: string) returns (files: seq<FileRecord>)
      ensures files == AllFiles(container.blobs, accountName, container.name, sas)
    {
      var blobs := container.blobs;
      var listed: seq<Listed> := [];
      var converted: map<string, string> := map[];
      var i := 0;
      while i < |blobs|
        invariant 0 <= i <= |blobs|
        invariant listed == ListedFiles(blobs[..i], accountName, container.name, sas)
        invariant converted == ConvertedUrls(blobs[..i], accountName, container.name, sas)
      {
        var blob := blobs[i];
        ListingStep(blobs, i, accountName, container.name, sas);
        if !IsConverted(blob.name) {
          listed := listed + [ListedOf(blob, accountName, container.name, sas)];
        } else {
          converted := converted[blob.name := BlobUrl(accountName, container.name, blob.name) + "?" + sas];
        }
        i := i + 1;
      }
      assert blobs[..i] == blobs;
      files := JoinConverted(listed, converted);
      assert files == AllFiles(blobs, accountName, container.name, sas);
    }

    /** `upsert_blob_metadata(file_name, metadata)`: read the blob's metadata,
        merge the update over it, write it back; `false` when the blob does
        not exist, and then nothing changes. */
    method UpsertBlobMetadata(fileName: string, metadata: Metadata) returns (ok: bool)
      requires container.Valid()
      modifies container
      ensures container.Valid()
      ensures ok == HasBlob(old(container.blobs), fileName)
      ensures container.blobs == Upserted(old(container.blobs), fileName, metadata)
    {
      var properties := container.Properties(fileName);
      if properties.None? {
        return false;
      }
      var blobMetadata := Merge(MetadataOf(properties.value), metadata);
      ok := container.SetMetadata(fileName, blobMetadata);
    }

    /** `delete_file(file_name)`: `false` when the blob does not exist. */
    method DeleteFile(fileName: string) returns (ok: bool)
      requires container.Valid()
      modifies container
      ensures container.Valid()
      ensures ok == HasBlob(old(container.blobs), fileName)
      ensures container.blobs == Removed(old(container.blobs), fileName)
    {
      ok := container.Delete(fileName);
    }

    /** `upload_file(bytes_data, file_name, content_type)` for data of `size`
        bytes: the blob is written without metadata and its URL with the blob
        token `token` is returned. */
    method UploadFile(fileName: string, size: nat, contentType: string, token: string) returns (url: string)
      requires container.Valid()
      modifies container
      ensures container.Valid()
      ensures container.blobs == Uploaded(old(container.blobs), Blob(fileName, contentType, size, None))
      ensures url == UploadUrl(accountName, container.name, fileName, token)
    {
      container.Upload(Blob(fileName, contentType, size, None));
      url := ClientUrl(accountName, container.name, fileName) + "?" + token;
    }
  }
}
