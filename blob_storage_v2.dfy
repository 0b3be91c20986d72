/** `AzureBlobStorage` of langchain/Blob_Storage_V2/blob_storage.py: the
    second version of the document listing (no join to converted copies),
    the metadata merge on the blob the client addresses, the SAS string
    shapes and the class-level singleton. */
module BlobStorageV2 {
  import opened Wrappers
  import opened Text
  import opened Storage
  import BlobStorage

  /** A record of `obtain_file_information`. */
  datatype FileInfo = FileInfo(
    filename: string,
    converted: bool,
    embeddingsAdded: bool,
    fullpath: string,
    convertedFilename: string,
    convertedPath: string)

  /** `retrieve_sas_container()` for the signed token `token`. */
  function RetrieveSasContainer(token: string): (r: string)
    ensures StartsWith(r, "?") && r[1..] == token
  {
    "?" + token
  }

  /** `retrieve_sas_blob(file_name)` for the signed token `token`. */
  function RetrieveSasBlob(account: string, container: string, name: string, token: string): (r: string)
    ensures StartsWith(r, BlobStorage.BlobUrl(account, container, name) + "?")
    ensures r[|BlobStorage.BlobUrl(account, container, name)| + 1..] == token
  {
    BlobStorage.BlobUrl(account, container, name) + "?" + token
  }

  /** The record the loop appends for a blob outside `converted/`; `sas` is
      what `retrieve_sas_container` returned. */
  function InfoOf(b: Blob, endpoint: string, container: string, sas: string): FileInfo {
    FileInfo(
      b.name,
      BlobStorage.Flag(b.metadata, "converted"),
      BlobStorage.Flag(b.metadata, "embeddings_added"),
      endpoint + "/" + container + "/" + b.name + "?" + sas,
      BlobStorage.ConvertedFilename(b.metadata),
      "")
  }

  /** What `obtain_file_information` returns for a listing. */
  function FileInformation(blobs: seq<Blob>, endpoint: string, container: string, sas: string): (r: seq<FileInfo>)
    ensures |r| == |BlobStorage.Sources(blobs)|
    ensures forall i :: 0 <= i < |r| ==> r[i] == InfoOf(BlobStorage.Sources(blobs)[i], endpoint, container, sas)
    decreases |blobs|
  {
    if blobs == [] then []
    else
      var last := blobs[|blobs| - 1];
      FileInformation(blobs[..|blobs| - 1], endpoint, container, sas)
        + (if IsConverted(last.name) then [] else [InfoOf(last, endpoint, container, sas)])
  }

  lemma FileInformationStep(blobs: seq<Blob>, i: nat, endpoint: string, container: string, sas: string)
    requires i < |blobs|
    ensures FileInformation(blobs[..i + 1], endpoint, container, sas)
      == FileInformation(blobs[..i], endpoint, container, sas)
         + (if IsConverted(blobs[i].name) then [] else [InfoOf(blobs[i], endpoint, container, sas)])
  {
    var p := blobs[..i + 1];
    assert p[..|p| - 1] == blobs[..i];
    assert p[|p| - 1] == blobs[i];
  }

  /** The listing hides every `converted/` blob and keeps one record per
      other blob, in listing order. */
  lemma FileInformationListing(blobs: seq<Blob>, endpoint: string, container: string, token: string)
    ensures var files := FileInformation(blobs, endpoint, container, RetrieveSasContainer(token));
      && |files| == |BlobStorage.Sources(blobs)|
      && (forall i :: 0 <= i < |files| ==> files[i].filename == BlobStorage.Sources(blobs)[i].name)
      && (forall i :: 0 <= i < |files| ==> !IsConverted(files[i].filename))
  {
    var s := BlobStorage.Sources(blobs);
    assert forall i :: 0 <= i < |s| ==> s[i] in s;
  }

  /** Each record's fields: the flags read `'true'` from the metadata,
      `converted_filename` is passed through, `converted_path` stays empty
      (there is no join), and the path carries `??` before the token because
      the container SAS already starts with `?`. */
  lemma FileInformationFields(blobs: seq<Blob>, endpoint: string, container: string, token: string, i: nat)
    requires i < |BlobStorage.Sources(blobs)|
    ensures var b := BlobStorage.Sources(blobs)[i];
      var f := FileInformation(blobs, endpoint, container, RetrieveSasContainer(token))[i];
      && (f.converted <==> b.metadata.Some? && "converted" in b.metadata.value && b.metadata.value["converted"] == "true")
      && (f.embeddingsAdded <==> b.metadata.Some? && "embeddings_added" in b.metadata.value
                                 && b.metadata.value["embeddings_added"] == "true")
      && f.convertedFilename == BlobStorage.ConvertedFilename(b.metadata)
      && f.convertedPath == ""
      && f.fullpath == endpoint + "/" + container + "/" + b.name + "??" + token
  {
    var b := BlobStorage.Sources(blobs)[i];
    BlobStorage.FlagMeaning(b.metadata, "converted");
    BlobStorage.FlagMeaning(b.metadata, "embeddings_added");
    var prefix := endpoint + "/" + container + "/" + b.name;
    assert prefix + "?" + ("?" + token) == prefix + "??" + token;
  }

  class AzureBlobStorage {
    const accountName: string
    /** `primary_endpoint` of the service the blobs are listed from. */
    const primaryEndpoint: string
    /** The container named by `container_name`. */
    const container: Container
    /** The blob `azure_blob_client` addresses. */
    const blobName: string

    constructor (accountName: string, primaryEndpoint: string, container: Container, blobName: string)
      ensures this.accountName == accountName && this.primaryEndpoint == primaryEndpoint
      ensures this.container == container && this.blobName == blobName
    {
      this.accountName := accountName;
      this.primaryEndpoint := primaryEndpoint;
      this.container := container;
      this.blobName := blobName;
    }

    /** `obtain_file_information()` with `token` the signed container token. */
    method ObtainFileInformation(token: string) returns (files: seq<FileInfo>)
      ensures files == FileInformation(container.blobs, primaryEndpoint, container.name, RetrieveSasContainer(token))
    {
      var blobs := container.blobs;
      var sasToken := RetrieveSasContainer(token);
      files := [];
      var i := 0;
      while i < |blobs|
        invariant 0 <= i <= |blobs|
        invariant files == FileInformation(blobs[..i], primaryEndpoint, container.name, sasToken)
      {
        FileInformationStep(blobs, i, primaryEndpoint, container.name, sasToken);
        if !IsConverted(blobs[i].name) {
          files := files + [InfoOf(blobs[i], primaryEndpoint, container.name, sasToken)];
        }
        i := i + 1;
      }
      assert blobs[..i] == blobs;
    }

    /** `insert_metadata(metadata)`: read the addressed blob's metadata,
        update it with `metadata`, write it back; `false` when the blob does
        not exist, and then nothing changes. */
    method InsertMetadata(metadata: Metadata) returns (ok: bool)
      requires container.Valid()
      modifies container
      ensures container.Valid()
      ensures ok == HasBlob(old(container.blobs), blobName)
      ensures container.blobs == Upserted(old(container.blobs), blobName, metadata)
    {
      var properties := container.Properties(blobName);
      if properties.None? {
        return false;
      }
      var blobMetadata := Merge(MetadataOf(properties.value), metadata);
      ok := container.SetMetadata(blobName, blobMetadata);
    }
  }

  /** The class attribute `_instance` of `AzureBlobStorage`. */
  class Registry {
    var instance: AzureBlobStorage?

    constructor ()
      ensures instance == null
    {
      instance := null;
    }

    /** `get_instance(...)`: build the instance on the first call only; every
        later call returns that same object. */
    method GetInstance(accountName: string, primaryEndpoint: string, container: Container, blobName: string)
      returns (s: AzureBlobStorage)
      modifies this
      ensures old(instance) != null ==> s == old(instance)
      ensures old(instance) == null ==> fresh(s) && s.accountName == accountName && s.container == container
      ensures instance == s
    {
      if instance == null {
        instance := new AzureBlobStorage(accountName, primaryEndpoint, container, blobName);
      }
      s := instance;
    }
  }
}
