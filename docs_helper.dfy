/** `LLMHelper` of code/Process_Docs/utilities/helper.py: a blob service
    client made at construction, a queue client that stays unset until
    `initialize_queue_client`, a listing of every blob's name, content type
    and size, a JSON send to the queue and a `processed` mark on a blob.

    The blob service is modelled with the one container it holds; a
    container name other than that container's names a container that does
    not exist. */
module DocsHelper {
  import opened Wrappers
  import opened Storage
  import opened Json

  /** The listing record `{'filename', 'content_type', 'size'}`, as the
      members `json.dumps` writes in order. */
  function Describe(b: Blob): (fields: seq<(string, Value)>)
    ensures |fields| == 3
    ensures fields[0] == ("filename", JString(b.name))
  {
    [("filename", JString(b.name)), ("content_type", JString(b.contentType)), ("size", JNat(b.size))]
  }

  /** The records of `get_all_files`: one per blob, `converted/` blobs included. */
  function Described(blobs: seq<Blob>): (r: seq<seq<(string, Value)>>)
    ensures |r| == |blobs|
    ensures forall i :: 0 <= i < |blobs| ==> r[i] == Describe(blobs[i])
  {
    seq(|blobs|, i requires 0 <= i < |blobs| => Describe(blobs[i]))
  }

  /** Every blob of the container appears in the listing under its own
      name, converted copies too. */
  lemma DescribedNamesEveryBlob(blobs: seq<Blob>, name: string)
    ensures HasBlob(blobs, name) <==> exists i :: 0 <= i < |blobs| && Described(blobs)[i][0].1 == JString(name)
  {
    var r: seq<seq<(string, Value)>> := Described(blobs);
    if exists i :: 0 <= i < |blobs| && r[i][0].1 == JString(name) {
      var i :| 0 <= i < |blobs| && r[i][0].1 == JString(name);
      assert blobs[i].name == name;
    }
  }

  /** The metadata `mark_file_as_processed` merges in. */
  const Processed: Metadata := map["processed" := "true"]

  class LLMHelper {
    var blobService: Container?
    var queueClient: MessageQueue?

    /** `LLMHelper(storage_connection_string)`: the blob service is connected,
        the queue client is not. */
    constructor (blobService: Container)
      ensures this.blobService == blobService && queueClient == null
    {
      this.blobService := blobService;
      queueClient := null;
    }

    /** `initialize_queue_client(queue_name)`, with `queue` the queue that
        name addresses. */
    method InitializeQueueClient(queue: MessageQueue)
      modifies this
      ensures queueClient == queue && blobService == old(blobService)
    {
      queueClient := queue;
    }

    /** `get_all_files(container_name)`: raises when there is no blob
        service or no such container. */
    method GetAllFiles(containerName: string) returns (r: Result<seq<seq<(string, Value)>>, string>)
      ensures r.Success? <==> blobService != null && blobService.name == containerName
      ensures r.Success? ==> r.value == Described(blobService.blobs)
    {
      if blobService == null || blobService.name != containerName {
        return Failure("container not found");
      }
      var blobList := blobService.blobs;
      var filesData: seq<seq<(string, Value)>> := [];
      var i := 0;
      while i < |blobList|
        invariant 0 <= i <= |blobList|
        invariant filesData == Described(blobList[..i])
      {
        filesData := filesData + [Describe(blobList[i])];
        i := i + 1;
      }
      assert blobList[..i] == blobList;
      r := Success(filesData);
    }

    /** `send_file_to_queue(file_info, queue_name)`: raises before sending
        when the queue client is unset; a failed send is printed and
        swallowed, so the call then succeeds with nothing queued. */
    method SendFileToQueue(fileInfo: seq<(string, Value)>) returns (r: Result<(), string>)
      modifies queueClient
      ensures r.Failure? <==> queueClient == null
      ensures queueClient != null ==>
        queueClient.messages == if EncodeObject(fileInfo) !in queueClient.refused then old(queueClient.messages) + [EncodeObject(fileInfo)]
                                else old(queueClient.messages)
    {
      if queueClient == null {
        return Failure("QueueClient is not initialized. Call initialize_queue_client() first.");
      }
      var fileInfoJson := EncodeObject(fileInfo);
      var sent := queueClient.Send(fileInfoJson);
      r := Success(());
    }

    /** `mark_file_as_processed(container_name, file_name)`: raises when
        there is no blob service; otherwise merges `processed='true'` into
        the blob's metadata, and a missing container or blob is printed and
        swallowed. */
    method MarkFileAsProcessed(containerName: string, fileName: string) returns (r: Result<bool, string>)
      requires blobService != null ==> blobService.Valid()
      modifies blobService
      ensures r.Failure? <==> blobService == null
      ensures blobService != null ==>
        && blobService.Valid()
        && r == Success(containerName == blobService.name && HasBlob(old(blobService.blobs), fileName))
        && blobService.blobs == if containerName == blobService.name then Upserted(old(blobService.blobs), fileName, Processed)
                                else old(blobService.blobs)
    {
      if blobService == null {
        return Failure("BlobServiceClient is not initialized.");
      }
      if containerName != blobService.name {
        return Success(false);
      }
      var properties := blobService.Properties(fileName);
      if properties.None? {
        return Success(false);
      }
      var metadata := Merge(MetadataOf(properties.value), Processed);
      var ok := blobService.SetMetadata(fileName, metadata);
      r := Success(ok);
    }
  }

  /** Marking a file processed sets `processed` and keeps every other key of
      its metadata; marking it again changes nothing. */
  lemma MarkProcessed(blobs: seq<Blob>, name: string, k: string)
    requires DistinctNames(blobs) && HasBlob(blobs, name)
    ensures var after := MetadataOf(Find(Upserted(blobs, name, Processed), name).value);
      var before := MetadataOf(Find(blobs, name).value);
      && "processed" in after && after["processed"] == "true"
      && (k != "processed" ==> (k in after <==> k in before) && (k in after ==> after[k] == before[k]))
    ensures Upserted(Upserted(blobs, name, Processed), name, Processed) == Upserted(blobs, name, Processed)
  {
    UpsertedFind(blobs, name, Processed, name);
    UpsertTwice(blobs, name, Processed);
  }
}
