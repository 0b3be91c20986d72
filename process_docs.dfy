/** The batch enqueuer `main` of code/Process_Docs/__init__.py: list the
    documents, keep those still waiting for embeddings (or all of them when
    `process_all` is `'true'`), reduce each to `{'filename': name}` and send
    each as one JSON queue message, then report how many were sent.

    The listing it consumes is `get_all_files` of the blob storage client
    (records as in `BlobStorage`). Base64 and UTF-8 transport encoding of the
    message is not modelled: a message is its JSON text. */
module ProcessDocs {
  import opened Wrappers
  import opened Text
  import opened Storage
  import opened Json
  import BlobStorage

  type FileRecord = BlobStorage.FileRecord

  /** The records whose `embeddings_added` is false, in listing order. */
  function Pending(files: seq<FileRecord>): (r: seq<FileRecord>)
    ensures forall f :: f in r <==> f in files && !f.embeddingsAdded
    decreases |files|
  {
    if files == [] then []
    else (if files[0].embeddingsAdded then [] else [files[0]]) + Pending(files[1..])
  }

  /** `filter(lambda x: not x['embeddings_added'], files)` unless
      `req.params.get('process_all') == 'true'`. */
  function Select(files: seq<FileRecord>, processAll: Option<string>): (r: seq<FileRecord>)
    ensures processAll == Some("true") ==> r == files
    ensures processAll != Some("true") ==> forall f :: f in r <==> f in files && !f.embeddingsAdded
  {
    if processAll == Some("true") then files else Pending(files)
  }

  /** `a` is `b` with some entries left out, the rest in their order. */
  predicate Subsequence<T(==)>(a: seq<T>, b: seq<T>)
    decreases |b|
  {
    if a == [] then true
    else if b == [] then false
    else if a[0] == b[0] then Subsequence(a[1..], b[1..])
    else Subsequence(a, b[1..])
  }

  lemma {:induction false} SubsequenceSelf<T>(a: seq<T>)
    ensures Subsequence(a, a)
    decreases |a|
  {
    if a != [] {
      SubsequenceSelf(a[1..]);
    }
  }

  lemma {:induction false} PendingSubsequence(files: seq<FileRecord>)
    ensures Subsequence(Pending(files), files)
    decreases |files|
  {
    if files != [] {
      PendingSubsequence(files[1..]);
      var rest := Pending(files[1..]);
      if files[0].embeddingsAdded {
        assert Pending(files) == rest;
        SkipHead(rest, files);
      } else {
        assert Pending(files) == [files[0]] + rest;
        assert ([files[0]] + rest)[1..] == rest;
      }
    }
  }

  /** A subsequence of a sequence's tail is one of the whole sequence. */
  lemma {:induction false} SkipHead<T>(a: seq<T>, b: seq<T>)
    requires b != [] && Subsequence(a, b[1..])
    ensures Subsequence(a, b)
    decreases |b|, 0
  {
    if a != [] && a[0] == b[0] {
      SubsequenceDrop(a, b[1..]);
    }
  }

  /** Dropping the head of `a` keeps it a subsequence. */
  lemma {:induction false} SubsequenceDrop<T>(a: seq<T>, b: seq<T>)
    requires a != [] && Subsequence(a, b)
    ensures Subsequence(a[1..], b)
    decreases |b|, 1
  {
    if a[1..] != [] {
      if a[0] != b[0] {
        SubsequenceDrop(a, b[1..]);
      }
      SkipHead(a[1..], b);
    }
  }

  /** The selection is always an order-preserving subsequence of the listing. */
  lemma SelectSubsequence(files: seq<FileRecord>, processAll: Option<string>)
    ensures Subsequence(Select(files, processAll), files)
  {
    if processAll == Some("true") {
      SubsequenceSelf(files);
    } else {
      PendingSubsequence(files);
    }
  }

  /** `list(map(lambda x: {'filename': x['filename']}, files))` */
  function Project(files: seq<FileRecord>): (r: seq<seq<(string, Value)>>)
    ensures |r| == |files|
  {
    seq(|files|, i requires 0 <= i < |files| => [("filename", JString(files[i].filename))])
  }

  /** The messages `json.dumps(fd)` gives for the projected records. */
  function Messages(data: seq<seq<(string, Value)>>): (r: seq<string>)
    ensures |r| == |data|
  {
    seq(|data|, i requires 0 <= i < |data| => EncodeObject(data[i]))
  }

  /** Each message names its file: decoding it as the queue worker does
      gives back the selected file's name. */
  lemma MessagesNameFiles(files: seq<FileRecord>, i: nat)
    requires i < |files|
    ensures Messages(Project(files))[i] == EncodeFilename(files[i].filename)
    ensures DecodeFilename(Messages(Project(files))[i]) == Some(files[i].filename)
  {
    FilenameRoundTrip(files[i].filename);
  }

  lemma MessagesStep(data: seq<seq<(string, Value)>>, i: nat)
    requires i < |data|
    ensures Messages(data[..i + 1]) == Messages(data[..i]) + [EncodeObject(data[i])]
  {
  }

  datatype HttpResponse = HttpResponse(body: string, statusCode: nat)

  /** The response for `n` queued documents. */
  function Started(n: nat): HttpResponse {
    HttpResponse("Conversion started successfully for " + NatToString(n) + " documents.", 200)
  }

  /** How many messages the send loop queues: the messages before the
      first one the queue refuses, or all of them. */
  function SentCount(msgs: seq<string>, refused: set<string>): (k: nat)
    ensures k <= |msgs|
    ensures forall i :: 0 <= i < k ==> msgs[i] !in refused
    ensures k < |msgs| ==> msgs[k] in refused
    decreases |msgs|
  {
    if msgs == [] || msgs[0] in refused then 0
    else 1 + SentCount(msgs[1..], refused)
  }

  /** The count is pinned by where the first refused message stands. */
  lemma SentCountAt(msgs: seq<string>, refused: set<string>, i: nat)
    requires i <= |msgs|
    requires forall j :: 0 <= j < i ==> msgs[j] !in refused
    requires i < |msgs| ==> msgs[i] in refused
    ensures SentCount(msgs, refused) == i
  {
  }

  /** The send loop of `main`: one message per projected record, in order.
      A refused send raises out of the loop and leaves the messages sent
      before it on the queue. */
  method SendAll(queue: MessageQueue, data: seq<seq<(string, Value)>>) returns (ok: bool)
    modifies queue
    ensures var k := SentCount(Messages(data), queue.refused);
      && (ok <==> k == |data|)
      && queue.messages == old(queue.messages) + Messages(data)[..k]
  {
    ghost var msgs := Messages(data);
    var i := 0;
    while i < |data|
      invariant 0 <= i <= |data|
      invariant forall j :: 0 <= j < i ==> msgs[j] !in queue.refused
      invariant queue.messages == old(queue.messages) + msgs[..i]
    {
      assert msgs[i] == EncodeObject(data[i]);
      var sent := queue.Send(EncodeObject(data[i]));
      if !sent {
        SentCountAt(msgs, queue.refused, i);
        return false;
      }
      assert msgs[..i + 1] == msgs[..i] + [msgs[i]];
      AppendAssoc(old(queue.messages), msgs[..i], [msgs[i]]);
      i := i + 1;
    }
    SentCountAt(msgs, queue.refused, i);
    return true;
  }

  /** `main(req)` with `processAll` the request's `process_all` parameter and
      `sas` the container token of the listing. The selected files'
      messages are queued in order up to the first refused one; the 200
      response comes only when every send went through. */
  method HandleRequest(client: BlobStorage.AzureBlobStorageClient, queue: MessageQueue,
                       processAll: Option<string>, sas: string)
    returns (r: Result<HttpResponse, string>)
    modifies queue
    ensures var selected := Select(BlobStorage.AllFiles(client.container.blobs, client.accountName, client.container.name, sas), processAll);
      var msgs := Messages(Project(selected));
      var k := SentCount(msgs, queue.refused);
      && queue.messages == old(queue.messages) + msgs[..k]
      && (r.Success? <==> k == |selected|)
      && (r.Success? ==> r.value == Started(|selected|))
  {
    var filesData := client.GetAllFiles(sas);
    var selected := Select(filesData, processAll);
    var data := Project(selected);
    var ok := SendAll(queue, data);
    if !ok {
      return Failure("send_message raised");
    }
    r := Success(Started(|data|));
  }
}
