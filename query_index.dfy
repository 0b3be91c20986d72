/** The deletion callbacks of langchain/Query_Database/index.py, over the
    cached embeddings table `data_embeddings` (absent once deleted) and the
    selections `embedding_to_drop` and `file_to_drop`. A callback that reads
    the absent table raises `KeyError`. */
module QueryIndex {
  import opened Wrappers
  import opened Vectors

  class EmbeddingsPage {
    var dataEmbeddings: Option<seq<Row>>
    /** The selection `embedding_to_drop`. */
    const embeddingToDrop: string
    /** The selection `file_to_drop`. */
    const fileToDrop: string
    const store: VectorStore

    constructor (dataEmbeddings: Option<seq<Row>>, embeddingToDrop: string, fileToDrop: string, store: VectorStore)
      ensures this.dataEmbeddings == dataEmbeddings && this.embeddingToDrop == embeddingToDrop
      ensures this.fileToDrop == fileToDrop && this.store == store
    {
      this.dataEmbeddings := dataEmbeddings;
      this.embeddingToDrop := embeddingToDrop;
      this.fileToDrop := fileToDrop;
      this.store := store;
    }

    /** `delete_embedding()`: the one selected key leaves the store and the
        cached table is dropped. */
    method DeleteEmbedding()
      modifies this, store
      ensures store.rows == WithoutKeys(old(store.rows), [embeddingToDrop])
      ensures dataEmbeddings == None
    {
      store.DeleteKeys([embeddingToDrop]);
      if dataEmbeddings.Some? {
        dataEmbeddings := None;
      }
    }

    /** `delete_file_embeddings()`: the selected file's rows leave the store
        (by their keys) and the cached table; nothing happens when the table
        is empty or holds no row of the file. */
    method DeleteFileEmbeddings() returns (r: Result<(), string>)
      modifies this, store
      ensures r.Failure? <==> old(dataEmbeddings).None?
      ensures old(dataEmbeddings).None? ==> store.rows == old(store.rows) && dataEmbeddings == old(dataEmbeddings)
      ensures old(dataEmbeddings).Some? ==>
        var t := FileRowsDeleted(old(store.rows), old(dataEmbeddings).value, fileToDrop);
        store.rows == t.store && dataEmbeddings == Some(t.cache)
    {
      if dataEmbeddings.None? {
        return Failure("KeyError: data_embeddings");
      }
      var table := dataEmbeddings.value;
      if |table| != 0 {
        var embeddingsToDelete := KeysOf(table, fileToDrop);
        if |embeddingsToDelete| > 0 {
          store.DeleteKeys(embeddingsToDelete);
          dataEmbeddings := Some(RowsNotOf(table, fileToDrop));
        }
      }
      r := Success(());
    }

    /** `delete_all()`: every key of the cached table leaves the store; the
        cached table itself is left as it was. */
    method DeleteAll() returns (r: Result<(), string>)
      modifies store
      ensures r.Failure? <==> dataEmbeddings.None?
      ensures dataEmbeddings.None? ==> store.rows == old(store.rows)
      ensures dataEmbeddings.Some? ==> store.rows == WithoutKeys(old(store.rows), AllKeys(dataEmbeddings.value))
    {
      if dataEmbeddings.None? {
        return Failure("KeyError: data_embeddings");
      }
      var embeddingsToDelete := AllKeys(dataEmbeddings.value);
      store.DeleteKeys(embeddingsToDelete);
      r := Success(());
    }
  }
}
