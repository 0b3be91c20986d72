# Call-Center-AI document ingestion, modelled in Dafny

This project models the document-ingestion bookkeeping of Call-Center-AI. It covers six flows:

- **Chunking.** The page-windowed chunker of `AzureFormRecognizerClient.analyze_read` turns a document layout into one text chunk per window of pages.
- **Listings and metadata.** Two versions of the blob-storage client list the container's documents with their `converted` / `embeddings_added` flags and upsert a blob's metadata.
- **Enqueuing.** The batch HTTP function selects the documents still to embed and puts one `{"filename": ...}` message per document on a queue.
- **The queue worker.** It decodes a message, embeds the file (text directly, any other file through conversion) and marks the blob `embeddings_added`.
- **The add-documents page.** It uploads documents one by one or in a batch, posts URL lists and calls the remote conversion service.
- **The deletion pages.** They delete files, their converted copies and their embeddings from the blob container and the vector store.

The Azure services are modelled as state:

- **Blob container** (`Storage.Container`): a sequence of named blobs with optional string metadata.
- **Message queue** (`Storage.MessageQueue`): a sequence of messages, and the set of message bodies the service refuses.
- **Vector store** (`Vectors.VectorStore`): a table of `(key, filename)` rows.
- **Embedding and conversion services** (`Collaborators.Services`): a call log plus the set of calls that raise.

Pure parts are functions, such as the URL shapes, flag parsing, the listing join, `json.dumps` and `urllib.parse.quote`. Code that updates state or loops becomes a class method proved against those functions. The properties proved include:

- the listing hides `converted/` blobs and keeps order;
- the join only raises `converted`;
- a metadata upsert is a merge and is idempotent;
- a filename message decodes to the filename it was made from;
- the chunker's output equals an independent per-window reference;
- it raises exactly when a page jumps more than one window ahead;
- the quirks of the table renderer;
- a batch upload never adds `embeddings_added`;
- the deletion cascade touches exactly the source blob, the converted copy and the file's embeddings.

Modules: `Wrappers`, `Text`, `UrlQuote`, `Json`, `Storage`, `Vectors`, `Collaborators` (shared), and one module per source file: `FormRecognizer`, `BlobStorage`, `BlobStorageV2`, `ProcessDocs`, `ProcessQueue`, `DocsHelper`, `DocFind`, `QueryIndex`, `AddEmbeddings`.

## Model

| member | source | states |
|---|---|---|
| FormRecognizer.ChunkIndexWindow | langchain/Structure_Data/form_recognizer_data.py:79 | the chunk index `(page-1) div w` puts page `p` in the window `k*w < p <= (k+1)*w` |
| FormRecognizer.RenderTable | langchain/Structure_Data/form_recognizer_data.py:97-107 | the cell loop leaves `previous_cell_row`, `rowcontent`, `tablecontent` equal to the reference fold `RenderCells` |
| FormRecognizer.ChunkParagraph | langchain/Structure_Data/form_recognizer_data.py:78-85 | one paragraph turn is the specification step `Step`: grow by one empty chunk if short, then append `content + "\n"` unless the role is excluded, raising when the index is still past the end |
| FormRecognizer.ChunkParagraphs | langchain/Structure_Data/form_recognizer_data.py:77-85 | the paragraph loop equals `Run` over the paragraphs from the empty list, including its `IndexError` |
| FormRecognizer.ChunkTable | langchain/Structure_Data/form_recognizer_data.py:92-108 | one table turn is `Step` with the rendered table text followed by a single pipe character |
| FormRecognizer.ChunkTables | langchain/Structure_Data/form_recognizer_data.py:91-108 | the table loop equals `Run` over the tables from the list the paragraph loop left |
| FormRecognizer.AnalyzeRead | langchain/Structure_Data/form_recognizer_data.py:67-109 | `analyze_read` after the service call returns `Extract(layout, n)`: every paragraph, then every table |
| FormRecognizer.RunAppend | langchain/Structure_Data/form_recognizer_data.py:77-108 | running over paragraphs then tables is the paragraph run followed by the table run from its result; an exception ends it |
| FormRecognizer.StepOutcome | langchain/Structure_Data/form_recognizer_data.py:81-85 | an item raises iff it indexes the list and its window is more than one past the end; otherwise the list grows by at most one empty chunk, only the item's own chunk gains exactly its text, and every other chunk is unchanged |
| FormRecognizer.KeptParagraphStep | langchain/Structure_Data/form_recognizer_data.py:84-85 | a non-excluded paragraph in an existing window appends exactly `content + "\n"` to its chunk and leaves the others |
| FormRecognizer.NewChunkParagraphStep | langchain/Structure_Data/form_recognizer_data.py:81-85 | a paragraph whose window is the next one opens a new chunk holding exactly `content + "\n"` |
| FormRecognizer.RunChunks | langchain/Structure_Data/form_recognizer_data.py:77-108 | a successful run leaves each chunk equal to its start text followed by the independent reference `ChunkText`, the texts of the items of that window in order; windows past the end hold no text |
| FormRecognizer.ChunkContents | langchain/Structure_Data/form_recognizer_data.py:67-108 | every chunk of `analyze_read` is its window's paragraph text followed by its window's table text, so tables follow all paragraphs |
| FormRecognizer.AppendOnly | langchain/Structure_Data/form_recognizer_data.py:81-108 | chunks only grow: the list never shrinks and each earlier chunk is a prefix of its final text |
| FormRecognizer.RunFailsIffJump | langchain/Structure_Data/form_recognizer_data.py:81-96 | the run raises iff some indexing item's window is past the length the list has grown to before it; on success the length is that grown length |
| FormRecognizer.FirstParagraphOnPageFive | langchain/Structure_Data/form_recognizer_data.py:79-85 | a first paragraph on page 5 with window 2 raises `IndexError`; the same paragraph as a page footer does not |
| FormRecognizer.FourParagraphsTwoChunks | langchain/Structure_Data/form_recognizer_data.py:77-85 | paragraphs on pages 1, 1, 2, 3 with window 2 give exactly two chunks: pages 1-2 and page 3 |
| FormRecognizer.AllRowZeroTable | langchain/Structure_Data/form_recognizer_data.py:97-108 | a table whose cells are all in row 0 contributes exactly one pipe character: the open row is never flushed |
| FormRecognizer.PendingRowNotFlushed | langchain/Structure_Data/form_recognizer_data.py:101-108 | a cell of the current row changes nothing the table contributes, since that row is never flushed |
| FormRecognizer.SkippedRowIndexQuirk | langchain/Structure_Data/form_recognizer_data.py:101-107 | the row counter moves by 1, not to the cell's row, so a jump from row 0 to row 2 flushes a row on every cell of row 2 |
| FormRecognizer.RowMajorRendering | langchain/Structure_Data/form_recognizer_data.py:97-107 | for cells whose rows go 0, 1, 2, ... without gaps, the accumulators hold the open last row and every earlier row flushed as a pipe, its cells each followed by space-pipe-space, then a newline; the first row opens with pipe-space |
| FormRecognizer.RowMajorTableText | langchain/Structure_Data/form_recognizer_data.py:97-108 | such a table contributes its flushed rows followed by one pipe character; its last row is dropped |
| BlobStorage.FlagMeaning | langchain/Process_Docs/blob_storage.py:132-133 | a flag is true iff the metadata exists and holds exactly the string `'true'` for the key |
| BlobStorage.ContainerSas | langchain/Process_Docs/blob_storage.py:180-182 | `get_container_sas` is `"?"` followed by the token |
| BlobStorage.FullpathIsBlobSas | langchain/Process_Docs/blob_storage.py:184-186 | a record's `fullpath` is the `get_blob_sas` shape `https://<account>.blob.core.windows.net/<container>/<name>?<sas>` |
| BlobStorage.Sources | langchain/Process_Docs/blob_storage.py:116-120 | the listed blobs are exactly those outside `converted/` |
| BlobStorage.ListedFiles | langchain/Process_Docs/blob_storage.py:116-137 | the first loop's `files` holds one record per non-converted blob, in listing order, built from that blob |
| BlobStorage.ConvertedUrls | langchain/Process_Docs/blob_storage.py:138-142 | `converted_files` maps exactly the `converted/` blobs of the listing to their URLs |
| BlobStorage.AllFilesListing | langchain/Process_Docs/blob_storage.py:116-160 | `get_all_files` returns one record per non-converted blob, in order, and no record names a `converted/` blob |
| BlobStorage.AllFilesJoin | langchain/Process_Docs/blob_storage.py:130-155 | a record is marked converted and gets the converted blob's URL iff its `converted_filename` names a `converted/` blob in the listing; otherwise it keeps the metadata flag and an empty path |
| BlobStorage.JoinNeverClearsConverted | langchain/Process_Docs/blob_storage.py:153-154 | the join can raise `converted` but never lowers it |
| BlobStorage.JoinConverted | langchain/Process_Docs/blob_storage.py:147-155 | the second loop pops `converted_filename` and joins every record, keeping the length |
| BlobStorage.AzureBlobStorageClient.GetAllFiles | langchain/Process_Docs/blob_storage.py:87-160 | the two loops return `AllFiles` of the container's listing, so every listing lemma applies |
| BlobStorage.AzureBlobStorageClient.UpsertBlobMetadata | langchain/Process_Docs/blob_storage.py:168-178 | the blob's metadata becomes the old dictionary updated by the new keys; a missing blob changes nothing and reports false (the exception, see Left out) |
| BlobStorage.AzureBlobStorageClient.DeleteFile | langchain/Process_Docs/blob_storage.py:43-53 | the named blob leaves the container; a missing blob reports false (the exception, see Left out) |
| BlobStorage.AzureBlobStorageClient.UploadFile | langchain/Process_Docs/blob_storage.py:62-80 | the blob is written without metadata, replacing any blob of that name, and the returned URL is `blob_client.url` (container and blob name URL-quoted), `?`, the blob token |
| BlobStorage.UploadUrlOfSafeNames | langchain/Process_Docs/blob_storage.py:80 | for container and blob names of safe characters only, the URL `upload_file` returns equals the one `get_blob_sas` builds |
| BlobStorage.UploadUrlEscapes | langchain/Process_Docs/blob_storage.py:80 | a blob name with any character `quote` escapes gives an upload URL different from the f-string URL |
| BlobStorageV2.RetrieveSasContainer | langchain/Blob_Storage_V2/blob_storage.py:152-157 | the container token string starts with `"?"`, followed by the token |
| BlobStorageV2.RetrieveSasBlob | langchain/Blob_Storage_V2/blob_storage.py:161-162 | the blob URL is `https://<account>.blob.core.windows.net/<container>/<name>?` followed by the token |
| BlobStorageV2.FileInformation | langchain/Blob_Storage_V2/blob_storage.py:74-95 | one record per non-converted blob, in listing order |
| BlobStorageV2.FileInformationListing | langchain/Blob_Storage_V2/blob_storage.py:74-95 | no record names a `converted/` blob, and each record is built from the blob at its position |
| BlobStorageV2.FileInformationFields | langchain/Blob_Storage_V2/blob_storage.py:88-93 | flags are true only for the metadata value `'true'`; `converted_filename` is passed through with default `''`; `converted_path` is always empty; `fullpath` carries `"??"` before the token |
| BlobStorageV2.AzureBlobStorage.ObtainFileInformation | langchain/Blob_Storage_V2/blob_storage.py:54-98 | the loop returns `FileInformation` of the listing under the `retrieve_sas_container` token |
| BlobStorageV2.AzureBlobStorage.InsertMetadata | langchain/Blob_Storage_V2/blob_storage.py:129-147 | the instance's blob gets its old metadata updated by the new keys, and every other key is kept |
| BlobStorageV2.Registry.GetInstance | langchain/Blob_Storage_V2/blob_storage.py:11-15 | once an instance exists, the same object is returned and nothing is constructed; the first call constructs it |
| ProcessDocs.Pending | code/Process_Docs/__init__.py:51 | the filter keeps exactly the records whose `embeddings_added` is false |
| ProcessDocs.Select | code/Process_Docs/__init__.py:51 | with `process_all` exactly `'true'` every record is selected; otherwise exactly the ones not yet embedded |
| ProcessDocs.SelectSubsequence | code/Process_Docs/__init__.py:51 | the selection is an order-preserving subsequence of the listing |
| ProcessDocs.MessagesNameFiles | code/Process_Docs/__init__.py:57-71 | the i-th message is `json.dumps({'filename': name})` of the i-th selected file and decodes back to that name |
| ProcessDocs.SentCount | code/Process_Docs/__init__.py:70-71 | the number of messages the loop sends is the index of the first refused message, or all of them: every message before it is accepted |
| ProcessDocs.SendAll | code/Process_Docs/__init__.py:70-71 | one message per record, in order, up to the first refused send, which raises; the messages sent before it stay on the queue, and the loop succeeds iff none was refused |
| ProcessDocs.HandleRequest | code/Process_Docs/__init__.py:27-77 | the queue gains the selected files' messages in order up to the first refused one; the response is status 200 with the selected count iff every message was sent, and on failure the prefix sent before the refusal stays queued |
| ProcessQueue.Dispatch | langchain/Process_Queue/__init__.py:64-69 | exactly one branch runs: the text path iff the name ends with `.txt`, with the blob's SAS URL |
| ProcessQueue.HandleMessage | langchain/Process_Queue/__init__.py:27-75 | a body that is not a `{"filename": ...}` object raises before any call; otherwise one processing call, and `embeddings_added='true'` is merged iff that call did not raise |
| ProcessQueue.WorkerUpdate | langchain/Process_Queue/__init__.py:75 | the worker sets `embeddings_added` and keeps every other key of the blob, `converted` and `converted_filename` included, and every other blob |
| ProcessQueue.RedeliveryIdempotent | langchain/Process_Queue/__init__.py:75 | redelivering a message leaves the container as one delivery left it |
| Json.FilenameRoundTrip | langchain/Process_Queue/__init__.py:46 | decoding the message `json.dumps` makes for `{'filename': name}` yields `name` |
| Json.EscapeRoundTrip | langchain/Process_Queue/__init__.py:46 | parsing the JSON string body that `json.dumps` escapes for any string gives back that string and the rest of the input |
| Json.EscapeAscii | code/Process_Docs/__init__.py:71 | `json.dumps` output with `ensure_ascii` is pure ASCII, so its UTF-8 encoding is the text itself |
| Json.Hex4RoundTrip | langchain/Process_Queue/__init__.py:46 | the four hex digits of a `\uXXXX` escape parse back to the code unit |
| Json.SurrogateHalves | langchain/Process_Queue/__init__.py:46 | a code point above U+FFFF splits into a high and a low surrogate that recombine to it |
| DocsHelper.Described | code/Process_Docs/utilities/helper.py:33-41 | one record per blob, in listing order, each exactly `filename`, `content_type`, `size` |
| DocsHelper.DescribedNamesEveryBlob | code/Process_Docs/utilities/helper.py:21-43 | every blob, `converted/` ones included, appears in the listing under its name, and only blobs do |
| DocsHelper.LLMHelper.constructor | code/Process_Docs/utilities/helper.py:6-11 | the blob service is set and the queue client is unset |
| DocsHelper.LLMHelper.InitializeQueueClient | code/Process_Docs/utilities/helper.py:13-19 | the queue client is set |
| DocsHelper.LLMHelper.GetAllFiles | code/Process_Docs/utilities/helper.py:21-43 | the loop returns `Described` of the container; an unknown container raises |
| DocsHelper.LLMHelper.SendFileToQueue | code/Process_Docs/utilities/helper.py:45-62 | raises iff the queue client is unset; otherwise the message `json.dumps(file_info)` is queued unless the queue refuses it, and a refused send is swallowed |
| DocsHelper.LLMHelper.MarkFileAsProcessed | code/Process_Docs/utilities/helper.py:64-84 | raises iff there is no blob service; otherwise `processed='true'` is merged into the blob's metadata, and a missing blob or container is swallowed |
| DocsHelper.MarkProcessed | code/Process_Docs/utilities/helper.py:75-81 | after marking, `processed` is `'true'`, every other key is kept, and marking again changes nothing |
| DocFind.Top | code/Query_Database/doc_find.py:17-18 | `get_all_documents(k=1000)` returns the first at most 1000 rows |
| DocFind.ConvertedText | code/Query_Database/doc_find.py:34 | the converted copy's name `'converted/' + name + '.txt'` differs from the name |
| DocFind.FindRecord | code/Query_Database/doc_find.py:64 | the lookup finds a record iff one has the name, and returns a record of that name |
| DocFind.WithoutLiteral | code/Query_Database/doc_find.py:87 | the final filter drops exactly the records named literally `{filename}` |
| DocFind.LiteralFilterKeepsListing | code/Query_Database/doc_find.py:87 | for ordinary names the final filter leaves `data_files` unchanged, the file just deleted included |
| DocFind.CascadeEffect | code/Query_Database/doc_find.py:67-80 | the source blob is always removed; the converted copy is removed iff the record says `converted`; no other blob is touched |
| DocFind.EmbeddingsTargetOfSafeName | code/Query_Database/doc_find.py:84 | for a name `quote` leaves alone, the embeddings lookup targets the converted copy's name |
| DocFind.Session.LoadEmbeddings | code/Query_Database/doc_find.py:58-59 | the cached table is loaded from the store only when absent |
| DocFind.Session.DeleteEmbeddingsOfFile | code/Query_Database/doc_find.py:11-49 | nothing is deleted for an empty table; otherwise exactly the keys of the rows of `converted/<name>.txt` leave the store and those rows leave the cache |
| DocFind.Session.DeleteBlobs | code/Query_Database/doc_find.py:67-80 | the cascade of blob deletions, with one error message per refused deletion and no stop between them |
| DocFind.DeleteOneEffect | code/Query_Database/doc_find.py:54-87 | one callback raises iff the name has no record, and then changes nothing but the loaded cache; otherwise the file's blob is gone, so is its converted copy when `converted` and its cached rows when `embeddings_added`; no blob comes back, blobs of other names are untouched, errors are only appended, rows only leave the store and the cache, and an ordinary listing is kept |
| DocFind.Session.DeleteFileAndEmbeddings | code/Query_Database/doc_find.py:54-87 | the new blobs, store rows, cache, errors and listing with the raised flag are exactly `DeleteOne` of the old state: an unknown name raises before any deletion; otherwise the cascade runs, embeddings go iff `embeddings_added` under the quoted name, and `data_files` is filtered on the literal |
| DocFind.DeleteAllKeeps | code/Query_Database/doc_find.py:90-93 | over the whole loop no blob comes back, a blob no listed file can reach keeps its contents, errors are only appended, and rows only leave the store and the cache |
| DocFind.DeleteAllRemovesSources | code/Query_Database/doc_find.py:90-93 | when no callback raised, no listed file's source blob is left |
| DocFind.DeleteAllPlain | code/Query_Database/doc_find.py:90-93 | for a listing with no empty or literal names no callback raises and the listing is kept; every listed blob is gone, and for each found record its converted copy when `converted` and its cached rows when `embeddings_added` |
| DocFind.DeleteAllSummary | code/Query_Database/doc_find.py:90-93 | the loop's three promises read off the fold: no blob comes back, sources are gone when nothing raised, and nothing raises for plain names |
| DocFind.Session.DeleteAllFilesAndEmbeddings | code/Query_Database/doc_find.py:90-93 | the final blobs, store rows, cache, errors and listing with the raised flag are exactly `DeleteAll`, the callback folded over the listing as it was when the loop started, stopping at the first raise; hence deleting never brings a blob back, when no call raised no listed file's source blob is left, and with no empty or literal names no call raises |
| Vectors.WithoutKeys | langchain/Query_Database/index.py:28 | `delete_keys` removes exactly the rows whose key is listed |
| Vectors.KeysOf | langchain/Query_Database/index.py:25-26 | the selected keys are exactly those of the rows of the chosen file, each as a string |
| Vectors.RowsNotOf | langchain/Query_Database/index.py:29 | the dropped table keeps exactly the rows of other files |
| Vectors.AllKeys | langchain/Query_Database/index.py:36-37 | every key of the cached table, in order |
| Vectors.DeleteMatchesDrop | langchain/Query_Database/index.py:25-29 | with unique keys, deleting a file's keys from a table removes exactly the rows the drop removes |
| Vectors.FileRowsDeleted | langchain/Query_Database/index.py:23-29 | nothing happens for an empty cache; otherwise the store loses exactly the keys of the file's cached rows and the cache loses exactly those rows |
| Vectors.CacheFollowsStore | langchain/Query_Database/index.py:25-29 | the cache after the deletion is the cache with the deleted keys removed |
| Vectors.DeleteAllKeysEmpties | langchain/Query_Database/index.py:36-38 | deleting every key of a table leaves none of its rows |
| Vectors.DeleteOneKey | langchain/Query_Database/index.py:13 | with unique keys, deleting one key removes at most the one row that holds it |
| QueryIndex.EmbeddingsPage.DeleteEmbedding | langchain/Query_Database/index.py:12-15 | exactly the selected key is deleted, and the cached table is dropped |
| QueryIndex.EmbeddingsPage.DeleteFileEmbeddings | langchain/Query_Database/index.py:22-29 | an absent table raises; otherwise the result is `FileRowsDeleted` on the store and the cache |
| QueryIndex.EmbeddingsPage.DeleteAll | langchain/Query_Database/index.py:35-38 | every key of the cached table is deleted and the cached table is left as it was |
| AddEmbeddings.RemoteConvertUrl | langchain/Add_Embeddings/embeddings.py:28-30 | the URL gets `?process_all=true` appended iff `process_all` |
| AddEmbeddings.UrlLines | langchain/Add_Embeddings/embeddings.py:51-53 | the lines embedded are the non-empty parts of the text split on `'\n'` |
| AddEmbeddings.UrlCallsInOrder | langchain/Add_Embeddings/embeddings.py:52-54 | `add_embeddings_lc` is called once per line, in order, until a call raises |
| AddEmbeddings.UrlCallsFail | langchain/Add_Embeddings/embeddings.py:52-54 | the loop stops early iff some line's call raises; otherwise every line is called |
| AddEmbeddings.EmbedLines | langchain/Add_Embeddings/embeddings.py:52-55 | the loop's calls are `UrlCalls` of the non-empty lines; it finishes iff no call raised |
| AddEmbeddings.AddDocumentPage.AddUrls | langchain/Add_Embeddings/embeddings.py:50-55 | `add_urls` calls `add_embeddings_lc` for the URL lines in order and completes iff none of those calls raises |
| AddEmbeddings.Extension | langchain/Add_Embeddings/embeddings.py:64 | the extension `guess_type` reads is empty or a `.`-suffix of the name |
| AddEmbeddings.ContentType | langchain/Add_Embeddings/embeddings.py:65-66 | `; charset=<encoding>` is appended iff the guessed type is exactly `text/plain` |
| AddEmbeddings.TextFileType | langchain/Add_Embeddings/embeddings.py:64-66 | a `.txt` file is stored as `text/plain; charset=<encoding>` |
| AddEmbeddings.UploadFileStep | langchain/Add_Embeddings/embeddings.py:61-66 | `upload_file` records the session filename first and raises iff the type cannot be guessed |
| AddEmbeddings.AddDocumentPage.UploadFile | langchain/Add_Embeddings/embeddings.py:61-66 | the page state after `upload_file` is `UploadFileStep` of the state before |
| AddEmbeddings.EmbedCall | langchain/Add_Embeddings/embeddings.py:115-121 | a `.txt` upload goes to `add_embeddings_lc`, any other to `convert_file_and_add_embeddings` |
| AddEmbeddings.AddDocumentPage.UploadSingle | langchain/Add_Embeddings/embeddings.py:108-124 | skipped when the name is the session filename; otherwise upload, one embedding call, and on success the metadata merge of `converted`, `embeddings_added` and the quoted converted name |
| AddEmbeddings.SingleUploadMarksBoth | langchain/Add_Embeddings/embeddings.py:123 | after a single upload the blob reads back as both `converted` and `embeddings_added`, and its `converted_filename` is the quoted name |
| AddEmbeddings.AddDocumentPage.UploadBatch | langchain/Add_Embeddings/embeddings.py:161-177 | the batch loop equals the specification `Batch` over the uploads |
| AddEmbeddings.BatchStepMetadata | langchain/Add_Embeddings/embeddings.py:171-177 | a batch file new to the session whose type can be guessed does not raise, is written afresh, and only a `.txt` file gets metadata, exactly `converted='true'` |
| AddEmbeddings.BatchNeverAddsEmbeddings | langchain/Add_Embeddings/embeddings.py:161-177 | a batch upload never gives any blob `embeddings_added` it did not have |
| AddEmbeddings.AddDocumentPage.UploadTextAndEmbeddings | langchain/Add_Embeddings/embeddings.py:17-21 | the text is stored as `<uuid>.txt` with `text/plain; charset=utf-8`, and the URL `upload_file` returns (names quoted, blob token appended) is embedded |
| Storage.Merge | langchain/Process_Docs/blob_storage.py:176 | `dict.update`: new keys take the new values and every other key keeps its old value |
| Storage.MergeTwice | langchain/Process_Docs/blob_storage.py:176-178 | applying the same update twice gives what applying it once gave |
| Storage.Find | langchain/Process_Docs/blob_storage.py:172-174 | a blob client finds a blob iff one has the name |
| Storage.UpsertedFind | langchain/Process_Docs/blob_storage.py:172-178 | the upsert sets the updated keys of the named blob, keeps its other keys, and leaves every other blob |
| Storage.UpsertTwice | langchain/Process_Docs/blob_storage.py:172-178 | upserting the same metadata twice leaves the container as upserting it once |
| Storage.Uploaded | langchain/Process_Docs/blob_storage.py:73 | `upload_blob(overwrite=True)` makes the name read back as the new blob, with no old metadata, and changes no other blob |
| Storage.Removed | langchain/Process_Docs/blob_storage.py:53 | `delete_blob` makes the name absent and changes no other blob |
| Storage.WithMetadataFind | langchain/Process_Docs/blob_storage.py:178 | `set_blob_metadata` replaces the named blob's metadata and changes no other blob |
| UrlQuote.UnquoteQuote | langchain/Add_Embeddings/embeddings.py:123 | `parse.quote` loses nothing: unquoting recovers the UTF-8 bytes of the name |
| UrlQuote.QuoteLonger | code/Query_Database/doc_find.py:84 | `parse.quote` never shortens a text and lengthens every text with a character outside the safe set |
| UrlQuote.QuoteSafe | code/Query_Database/doc_find.py:84 | `parse.quote` leaves a name of unreserved characters and `/` unchanged |
| UrlQuote.QuoteAlphabet | langchain/Add_Embeddings/embeddings.py:123 | quoted text contains only safe characters, `%` and upper-case hex digits |
| Text.JoinSplit | langchain/Add_Embeddings/embeddings.py:51 | splitting on `'\n'` loses nothing: joining the parts gives back the text |

## Left out

- The Azure SDK is left out: blob service construction, connection strings, account keys, and SAS signing with its UTC expiry. Tokens are opaque string parameters. `list_blobs` returns the container's blobs in the order the model keeps, which is the order they were first uploaded. The service's lexicographic listing order is not modelled.
- The Form Recognizer call (`DocumentAnalysisClient`, `poller.result()`) is left out. The layout is an input of `AnalyzeRead`, and each paragraph or table is placed by the page of its first bounding region.
- FormRecognizer.ChunkIndex does not model float division and truncation. It models `int((page-1)/n)` as integer division for pages `>= 1` and requires `n >= 1`. With `PAGES_PER_EMBEDDINGS=0` the source raises `ZeroDivisionError`, and float rounding for very large page numbers is not modelled.
- FormRecognizer.Step models the source's `IndexError` as a `Failure` result, not as a precondition. An excluded paragraph never indexes the list, so it never raises.
- The vector store's own code is not part of this model: Redis, the embeddings themselves and similarity search are out. `delete_keys` removes the rows with the listed keys, and `get_all_documents(k)` returns the first `k` rows.
- `delete_row` (langchain/Add_Embeddings/embeddings.py:43-45) calls `redisembeddings`, which the file never defines, so it is left out. The read-only "view documents" panel is left out too.
- Json.DecodeFilename does not model the full `json.loads`. It accepts the exact shape `json.dumps` produces for `{'filename': name}`: a parser for the whole JSON grammar is not part of the model, and other valid JSON objects are treated as failures. Lone surrogate code points are not representable in Dafny `char`. The base64 queue encoding and the UTF-8 encode/decode pair are identities on that ASCII text (Json.EscapeAscii) and are not modelled separately.
- The UTF-8 encoding in `UrlQuote.Utf8` covers Dafny `char`s, which are Unicode scalar values. It is not shared with the JSON text, which is ASCII.
- AddEmbeddings.GuessType covers only the five types the page accepts (`.pdf`, `.jpg`, `.jpeg`, `.png`, `.txt`) plus their upper-case forms, through a case-insensitive second lookup. The rest of the `mimetypes` table is not modelled. `chardet.detect` is not modelled: the detected encoding is a parameter of each upload. The UUID of `upload_text_and_embeddings` is a parameter.
- The embedding and conversion calls (`add_embeddings_lc`, `convert_file_and_add_embeddings`, `add_embeddings_preprocess`, `file_conversion_add_embeddings_preprocess`) are external. They are logged calls that raise exactly when they are in the service's failing set. The converted filename that conversion returns is a function of the source name.
- The Streamlit UI is left out: widgets, `st.success`/`st.error` rendering and exception text. The `st.session_state` entries the flows read and write are class fields. `DocFind` keeps the `st.error` messages as a list.
- The `AzureBlobStorage.__init__` / `get_instance` construction path of langchain/Blob_Storage_V2/blob_storage.py:14,24-47 cannot run as written. `get_instance` passes three arguments to a constructor that takes none. The model constructs the instance from its fields. `upload_file_metadata` (line 107-121) calls `retrieve_sas_blob` with the wrong arity and is left out.
- `code/Process_Docs/__init__.py` builds `LLMHelper()` with no arguments and uses `.blob_client`, which the helper in code/Process_Docs/utilities/helper.py does not have. The model gives `main` the client of langchain/Process_Docs/blob_storage.py. `DocsHelper.LLMHelper` models its blob service with the one container it holds.
- BlobStorage.AzureBlobStorageClient.UpsertBlobMetadata, BlobStorage.AzureBlobStorageClient.DeleteFile and BlobStorageV2.AzureBlobStorage.InsertMetadata model the `ResourceNotFoundError` the service raises for a missing blob (langchain/Process_Docs/blob_storage.py:53 and :174, langchain/Blob_Storage_V2/blob_storage.py:134) as `ok == false`, with nothing changed. The callers turn it back into what the exception does: ProcessQueue.HandleMessage returns a failure, and DocFind.Session.DeleteBlobs records the `st.error` message the `except` prints. The two `upsert_blob_metadata` calls of AddEmbeddings follow an upload of the same blob, so the missing case does not arise there.
- Storage.MessageQueue refuses a message by its body alone: `refused` is the set of bodies whose `send_message` raises. Refusals that depend on time or on earlier sends are not modelled.
- The queue worker uses that same client's SAS URL shape for `retrieve_sas_blob`, with the token as a parameter.
- The loop over the one-element list `['.txt']` in `delete_embeddings_of_file` runs exactly once and is modelled as straight-line code.
- Concurrency is left out: at-least-once delivery, concurrent read-modify-write of metadata and simultaneous sessions. Every flow is sequential. Exceptions from the blob service inside `delete_file_and_embeddings` are modelled as the reported errors of refused deletions.
- The "embeddings_added implies converted" invariant is not asserted. The worker sets only `embeddings_added`, so the code does not keep it.
- FormRecognizer.FourParagraphsTwoChunks states the worked example for arbitrary paragraph contents rather than for fixed strings.
