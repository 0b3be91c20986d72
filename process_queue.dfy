/** The queue worker `main` of langchain/Process_Queue/__init__.py: read the
    file name from a `{"filename": ...}` message, build the blob's SAS URL,
    embed the file (a text file directly, any other file through conversion)
    and, when that did not raise, mark the blob `embeddings_added='true'`. */
module ProcessQueue {
  import opened Wrappers
  import opened Text
  import opened Storage
  import opened Json
  import opened Collaborators
  import BlobStorage

  /** The one metadata update the worker writes. */
  const EmbeddingsAdded: Metadata := map["embeddings_added" := "true"]

  /** The processing call for a file: `add_embeddings_preprocess` for a
      `.txt` file, `file_conversion_add_embeddings_preprocess` otherwise. */
  function Dispatch(filename: string, fileSas: string): (c: Call)
    ensures c.AddEmbeddingsPreprocess? <==> EndsWith(filename, ".txt")
    ensures c.FileConversionAddEmbeddingsPreprocess? <==> !EndsWith(filename, ".txt")
    ensures c.sourceUrl == fileSas
  {
    if EndsWith(filename, ".txt") then AddEmbeddingsPreprocess(fileSas)
    else FileConversionAddEmbeddingsPreprocess(fileSas, filename)
  }

  /** `main(msg)` with `body` the message text and `token` the signed blob
      token. A message that is not a `{"filename": ...}` object raises
      before anything is called; a processing call that raises skips the
      metadata update; updating a missing blob raises. */
  method HandleMessage(client: BlobStorage.AzureBlobStorageClient, services: Services, body: string, token: string)
    returns (r: Result<string, string>)
    requires client.container.Valid()
    modifies client.container, services
    ensures client.container.Valid()
    ensures DecodeFilename(body).None? ==>
      && r.Failure?
      && services.calls == old(services.calls)
      && client.container.blobs == old(client.container.blobs)
    ensures DecodeFilename(body).Some? ==>
      var name := DecodeFilename(body).value;
      var call := Dispatch(name, BlobStorage.BlobSas(client.accountName, client.container.name, name, token));
      && services.calls == old(services.calls) + [call]
      && client.container.blobs == (if call in services.failing then old(client.container.blobs)
                                    else Upserted(old(client.container.blobs), name, EmbeddingsAdded))
      && (r.Success? <==> call !in services.failing && HasBlob(old(client.container.blobs), name))
      && (r.Success? ==> r.value == name)
  {
    var filenameInfo := DecodeFilename(body);
    if filenameInfo.None? {
      return Failure("json.loads raised");
    }
    var name := filenameInfo.value;
    var fileSas := BlobStorage.BlobSas(client.accountName, client.container.name, name, token);
    var ok := services.Invoke(Dispatch(name, fileSas));
    if !ok {
      return Failure("processing raised");
    }
    var updated := client.UpsertBlobMetadata(name, EmbeddingsAdded);
    if !updated {
      return Failure("blob not found");
    }
    r := Success(name);
  }

  /** The worker's update sets `embeddings_added` on the processed blob and
      leaves every other key of it, `converted` and `converted_filename`
      included, and every other blob unchanged. */
  lemma WorkerUpdate(blobs: seq<Blob>, name: string, n: string, k: string)
    ensures var after := Find(Upserted(blobs, name, EmbeddingsAdded), n);
      && (n != name ==> after == Find(blobs, n))
      && (n == name && HasBlob(blobs, name) ==>
            && after.Some?
            && "embeddings_added" in MetadataOf(after.value)
            && MetadataOf(after.value)["embeddings_added"] == "true"
            && (k != "embeddings_added" ==>
                  (k in MetadataOf(after.value) <==> k in MetadataOf(Find(blobs, n).value))
                  && (k in MetadataOf(after.value) ==> MetadataOf(after.value)[k] == MetadataOf(Find(blobs, n).value)[k])))
  {
    UpsertedFind(blobs, name, EmbeddingsAdded, n);
  }

  /** Delivering the same message again leaves the container as one
      delivery left it. */
  lemma RedeliveryIdempotent(blobs: seq<Blob>, name: string)
    requires DistinctNames(blobs)
    ensures Upserted(Upserted(blobs, name, EmbeddingsAdded), name, EmbeddingsAdded) == Upserted(blobs, name, EmbeddingsAdded)
  {
    UpsertTwice(blobs, name, EmbeddingsAdded);
  }
}
