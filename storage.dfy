/** The Azure blob container and message queue as the ingestion flows see
    them: a listing of named blobs, each with an optional metadata dictionary
    of strings, and a queue of string messages.

    The service calls the flows make (`upload_blob` with `overwrite=True`,
    `delete_blob`, `get_blob_properties`, `set_blob_metadata`,
    `send_message`) become methods that change this state. A call that the
    service refuses because the blob does not exist reports `false`. */
module Storage {
  import opened Wrappers
  import opened Text

  /** A blob's metadata: string keys to string values. */
  type Metadata = map<string, string>

  /** A blob as `list_blobs(include='metadata')` reports it. `metadata` is
      `None` for a blob the service returns without a metadata dictionary. */
  datatype Blob = Blob(name: string, contentType: string, size: nat, metadata: Option<Metadata>)

  /** Blobs written by the conversion step live under this prefix. */
  const ConvertedPrefix: string := "converted/"

  predicate IsConverted(name: string) {
    StartsWith(name, ConvertedPrefix)
  }

  /** `blob_metadata.update(metadata)`: every key of `update` takes the new
      value; every other key keeps the old one. */
  function Merge(current: Metadata, update: Metadata): (m: Metadata)
    ensures m.Keys == current.Keys + update.Keys
    ensures forall k :: k in update ==> m[k] == update[k]
    ensures forall k :: k in current && k !in update ==> m[k] == current[k]
  {
    current + update
  }

  /** Applying the same update twice leaves what applying it once left. */
  lemma MergeTwice(current: Metadata, update: Metadata)
    ensures Merge(Merge(current, update), update) == Merge(current, update)
  {
  }

  /** `properties.metadata`: a blob without a metadata dictionary reads as `{}`. */
  function MetadataOf(b: Blob): Metadata {
    b.metadata.GetOr(map[])
  }

  // ---------------------------------------------------------------------
  // The listing

  predicate HasBlob(blobs: seq<Blob>, name: string) {
    exists i :: 0 <= i < |blobs| && blobs[i].name == name
  }

  /** No two blobs of a container share a name. */
  predicate DistinctNames(blobs: seq<Blob>) {
    forall i, j :: 0 <= i < j < |blobs| ==> blobs[i].name != blobs[j].name
  }

  /** The blob a client for `name` addresses, if there is one. */
  function Find(blobs: seq<Blob>, name: string): (r: Option<Blob>)
    ensures r.Some? <==> HasBlob(blobs, name)
    ensures r.Some? ==> r.value in blobs && r.value.name == name
    decreases |blobs|
  {
    if blobs == [] then None
    else if blobs[0].name == name then Some(blobs[0])
    else
      assert forall i :: 1 <= i < |blobs| ==> blobs[i] == blobs[1..][i - 1];
      Find(blobs[1..], name)
  }

  /** In a container with distinct names, `Find` returns the blob at the
      position where the name sits. */
  lemma FindAt(blobs: seq<Blob>, i: nat)
    requires DistinctNames(blobs) && i < |blobs|
    ensures Find(blobs, blobs[i].name) == Some(blobs[i])
    decreases i
  {
    if i > 0 {
      assert blobs[1..][i - 1] == blobs[i];
      FindAt(blobs[1..], i - 1);
    }
  }

  /** Putting a blob whose name is not yet taken in front keeps names distinct. */
  lemma DistinctCons(x: Blob, rest: seq<Blob>)
    requires DistinctNames(rest) && !HasBlob(rest, x.name)
    ensures DistinctNames([x] + rest)
  {
    var r := [x] + rest;
    forall i, j | 0 <= i < j < |r|
      ensures r[i].name != r[j].name
    {
      assert r[j] == rest[j - 1];
      if i > 0 {
        assert r[i] == rest[i - 1];
      }
    }
  }

  /** The first blob's name does not appear again in a container with distinct names. */
  lemma DistinctTail(blobs: seq<Blob>)
    requires DistinctNames(blobs) && blobs != []
    ensures DistinctNames(blobs[1..]) && !HasBlob(blobs[1..], blobs[0].name)
  {
    forall i | 0 <= i < |blobs[1..]|
      ensures blobs[1..][i].name != blobs[0].name
    {
      assert blobs[1..][i] == blobs[i + 1];
    }
  }

  /** `upload_blob(..., overwrite=True)`: a new name joins the end of the
      listing; an existing blob is replaced where it stands, and the new
      blob carries no metadata of the old one. */
  function Uploaded(blobs: seq<Blob>, b: Blob): (r: seq<Blob>)
    ensures Find(r, b.name) == Some(b)
    ensures forall n :: n != b.name ==> Find(r, n) == Find(blobs, n)
    decreases |blobs|
  {
    if blobs == [] then [b]
    else if blobs[0].name == b.name then [b] + blobs[1..]
    else [blobs[0]] + Uploaded(blobs[1..], b)
  }

  lemma {:induction false} UploadedDistinct(blobs: seq<Blob>, b: Blob)
    requires DistinctNames(blobs)
    ensures DistinctNames(Uploaded(blobs, b))
    decreases |blobs|
  {
    if blobs != [] {
      DistinctTail(blobs);
      if blobs[0].name == b.name {
        DistinctCons(b, blobs[1..]);
      } else {
        var rest := Uploaded(blobs[1..], b);
        UploadedDistinct(blobs[1..], b);
        assert Find(rest, blobs[0].name) == Find(blobs[1..], blobs[0].name);
        DistinctCons(blobs[0], rest);
      }
    }
  }

  /** `delete_blob`: the blob leaves the listing; the others keep their order. */
  function Removed(blobs: seq<Blob>, name: string): (r: seq<Blob>)
    ensures Find(r, name) == None
    ensures forall n :: n != name ==> Find(r, n) == Find(blobs, n)
    ensures !HasBlob(blobs, name) ==> r == blobs
    decreases |blobs|
  {
    if blobs == [] then []
    else if blobs[0].name == name then Removed(blobs[1..], name)
    else
      assert !HasBlob(blobs, name) ==> !HasBlob(blobs[1..], name) by {
        if HasBlob(blobs[1..], name) {
          var i :| 0 <= i < |blobs[1..]| && blobs[1..][i].name == name;
          assert blobs[i + 1].name == name;
        }
      }
      [blobs[0]] + Removed(blobs[1..], name)
  }

  lemma {:induction false} RemovedDistinct(blobs: seq<Blob>, name: string)
    requires DistinctNames(blobs)
    ensures DistinctNames(Removed(blobs, name))
    decreases |blobs|
  {
    if blobs != [] {
      DistinctTail(blobs);
      RemovedDistinct(blobs[1..], name);
      if blobs[0].name != name {
        var rest := Removed(blobs[1..], name);
        assert Find(rest, blobs[0].name) == Find(blobs[1..], blobs[0].name);
        DistinctCons(blobs[0], rest);
      }
    }
  }

  /** `set_blob_metadata`: the blob's metadata is replaced; every blob keeps
      its name and position. */
  function WithMetadata(blobs: seq<Blob>, name: string, md: Metadata): (r: seq<Blob>)
    ensures |r| == |blobs|
    ensures forall i :: 0 <= i < |blobs| ==> r[i].name == blobs[i].name
    decreases |blobs|
  {
    if blobs == [] then []
    else if blobs[0].name == name then [blobs[0].(metadata := Some(md))] + WithMetadata(blobs[1..], name, md)
    else [blobs[0]] + WithMetadata(blobs[1..], name, md)
  }

  /** After `set_blob_metadata` the named blob reads back with the new
      metadata and every other blob reads back as before. */
  lemma {:induction false} WithMetadataFind(blobs: seq<Blob>, name: string, md: Metadata, n: string)
    ensures Find(WithMetadata(blobs, name, md), n)
      == if n != name then Find(blobs, n)
         else if HasBlob(blobs, name) then Some(Find(blobs, name).value.(metadata := Some(md)))
         else None
    decreases |blobs|
  {
    if blobs != [] {
      WithMetadataFind(blobs[1..], name, md, n);
      var r := WithMetadata(blobs, name, md);
      assert r[1..] == WithMetadata(blobs[1..], name, md);
    }
  }

  lemma WithMetadataDistinct(blobs: seq<Blob>, name: string, md: Metadata)
    requires DistinctNames(blobs)
    ensures DistinctNames(WithMetadata(blobs, name, md))
  {
  }

  /** The read-modify-write of `upsert_blob_metadata`: read the blob's
      metadata, merge the update over it, write it back. A missing blob
      leaves the container as it was. */
  function Upserted(blobs: seq<Blob>, name: string, update: Metadata): seq<Blob> {
    match Find(blobs, name)
    case None => blobs
    case Some(b) => WithMetadata(blobs, name, Merge(MetadataOf(b), update))
  }

  /** An upsert sets the updated keys of the named blob, keeps its other keys,
      and leaves every other blob as it was. */
  lemma UpsertedFind(blobs: seq<Blob>, name: string, update: Metadata, n: string)
    ensures Find(Upserted(blobs, name, update), n)
      == if n != name || !HasBlob(blobs, name) then Find(blobs, n)
         else Some(Find(blobs, name).value.(metadata := Some(Merge(MetadataOf(Find(blobs, name).value), update))))
  {
    if HasBlob(blobs, name) {
      var b := Find(blobs, name).value;
      WithMetadataFind(blobs, name, Merge(MetadataOf(b), update), n);
    }
  }

  /** Upserting the same update twice leaves the container as upserting it once. */
  lemma {:induction false} UpsertTwice(blobs: seq<Blob>, name: string, update: Metadata)
    requires DistinctNames(blobs)
    ensures Upserted(Upserted(blobs, name, update), name, update) == Upserted(blobs, name, update)
  {
    match Find(blobs, name)
    case None =>
    case Some(b) =>
      var md := Merge(MetadataOf(b), update);
      var once := WithMetadata(blobs, name, md);
      MergeTwice(MetadataOf(b), update);
      WithMetadataFind(blobs, name, md, name);
      assert Find(once, name) == Some(b.(metadata := Some(md)));
      WithMetadataTwice(blobs, name, md);
  }

  /** Writing the same metadata twice is writing it once. */
  lemma {:induction false} WithMetadataTwice(blobs: seq<Blob>, name: string, md: Metadata)
    ensures WithMetadata(WithMetadata(blobs, name, md), name, md) == WithMetadata(blobs, name, md)
    decreases |blobs|
  {
    if blobs != [] {
      WithMetadataTwice(blobs[1..], name, md);
      var once := WithMetadata(blobs, name, md);
      assert once[1..] == WithMetadata(blobs[1..], name, md);
    }
  }

  // ---------------------------------------------------------------------
  // Service state

  /** A blob container: its name and its blobs in listing order. */
  class Container {
    const name: string
    var blobs: seq<Blob>

    predicate Valid()
      reads this
    {
      DistinctNames(blobs)
    }

    constructor (name: string)
      ensures this.name == name && blobs == [] && Valid()
    {
      this.name := name;
      blobs := [];
    }

    /** `upload_blob(data, overwrite=True, content_settings=...)` */
    method Upload(b: Blob)
      requires Valid()
      modifies this
      ensures Valid()
      ensures blobs == Uploaded(old(blobs), b)
    {
      UploadedDistinct(blobs, b);
      blobs := Uploaded(blobs, b);
    }

    /** `delete_blob()`: refused when the blob does not exist. */
    method Delete(n: string) returns (ok: bool)
      requires Valid()
      modifies this
      ensures Valid()
      ensures ok == HasBlob(old(blobs), n)
      ensures blobs == Removed(old(blobs), n)
    {
      ok := Find(blobs, n).Some?;
      RemovedDistinct(blobs, n);
      blobs := Removed(blobs, n);
    }

    /** `get_blob_properties()`: refused when the blob does not exist. */
    method Properties(n: string) returns (r: Option<Blob>)
      ensures r == Find(blobs, n)
    {
      r := Find(blobs, n);
    }

    /** `set_blob_metadata(metadata=md)`: refused when the blob does not exist. */
    method SetMetadata(n: string, md: Metadata) returns (ok: bool)
      requires Valid()
      modifies this
      ensures Valid()
      ensures ok == HasBlob(old(blobs), n)
      ensures blobs == WithMetadata(old(blobs), n, md)
    {
      ok := Find(blobs, n).Some?;
      WithMetadataDistinct(blobs, n, md);
      blobs := WithMetadata(blobs, n, md);
    }
  }

  /** A storage queue. `refused` holds the message bodies the service
      refuses; a refused send raises in the caller and queues nothing. */
  class MessageQueue {
    const refused: set<string>
    var messages: seq<string>

    constructor (refused: set<string>)
      ensures this.refused == refused && messages == []
    {
      this.refused := refused;
      messages := [];
    }

    /** `send_message(body)` */
    method Send(body: string) returns (ok: bool)
      modifies this
      ensures ok == (body !in refused)
      ensures messages == if ok then old(messages) + [body] else old(messages)
    {
      ok := body !in refused;
      if ok {
        messages := messages + [body];
      }
    }
  }
}
