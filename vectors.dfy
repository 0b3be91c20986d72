/** The vector store as the deletion pages use it: a table of rows, each an
    embedding's key and the name of the document it came from. The store's
    own code is not part of this model; `delete_keys` and
    `get_all_documents` are given the plainest meaning that fits their use. */
module Vectors {

  datatype Row = Row(key: string, filename: string)

  /** Keys of a store are unique. */
  predicate DistinctKeys(rows: seq<Row>) {
    forall i, j :: 0 <= i < j < |rows| ==> rows[i].key != rows[j].key
  }

  /** The rows whose key is not listed, in their order. */
  function WithoutKeys(rows: seq<Row>, keys: seq<string>): (r: seq<Row>)
    ensures forall x :: x in r <==> x in rows && x.key !in keys
    ensures |r| <= |rows|
    decreases |rows|
  {
    if rows == [] then []
    else (if rows[0].key in keys then [] else [rows[0]]) + WithoutKeys(rows[1..], keys)
  }

  /** `table[table['filename'] == f]['key'].tolist()`, each key through
      `f"{x}"`: the keys of the file's rows, in row order. */
  function KeysOf(rows: seq<Row>, f: string): (keys: seq<string>)
    ensures forall k :: k in keys <==> exists i :: 0 <= i < |rows| && rows[i].filename == f && rows[i].key == k
    ensures |keys| <= |rows|
    decreases |rows|
  {
    if rows == [] then []
    else
      var rest := KeysOf(rows[1..], f);
      assert forall i :: 1 <= i < |rows| ==> rows[i] == rows[1..][i - 1];
      (if rows[0].filename == f then [rows[0].key] else []) + rest
  }

  /** `table.drop(table[table['filename'] == f].index)`: the rows of other files, in order. */
  function RowsNotOf(rows: seq<Row>, f: string): (r: seq<Row>)
    ensures forall x :: x in r <==> x in rows && x.filename != f
    ensures |r| <= |rows|
    decreases |rows|
  {
    if rows == [] then []
    else (if rows[0].filename == f then [] else [rows[0]]) + RowsNotOf(rows[1..], f)
  }

  /** `table.key.tolist()`, each key through `f"{x}"`. */
  function AllKeys(rows: seq<Row>): (keys: seq<string>)
    ensures |keys| == |rows|
    ensures forall i :: 0 <= i < |rows| ==> keys[i] == rows[i].key
  {
    seq(|rows|, i requires 0 <= i < |rows| => rows[i].key)
  }

  /** With unique keys, deleting a file's keys from the store removes exactly
      the rows that dropping the file's rows from the cached table removes. */
  lemma {:induction false} DeleteMatchesDrop(rows: seq<Row>, f: string)
    requires DistinctKeys(rows)
    ensures WithoutKeys(rows, KeysOf(rows, f)) == RowsNotOf(rows, f)
    decreases |rows|
  {
    if rows != [] {
      var tail := rows[1..];
      assert DistinctKeys(tail) by {
        forall i, j | 0 <= i < j < |tail| ensures tail[i].key != tail[j].key {
          assert tail[i] == rows[i + 1] && tail[j] == rows[j + 1];
        }
      }
      DeleteMatchesDrop(tail, f);
      var keys := KeysOf(rows, f);
      forall i | 0 <= i < |tail|
        ensures tail[i].key in keys <==> tail[i].key in KeysOf(tail, f)
      {
        assert tail[i] == rows[i + 1];
        assert rows[0].key != tail[i].key;
      }
      WithoutKeysAgree(tail, keys, KeysOf(tail, f));
    }
  }

  /** Two key lists that agree on every key of the table delete the same rows. */
  lemma {:induction false} WithoutKeysAgree(rows: seq<Row>, a: seq<string>, b: seq<string>)
    requires forall i :: 0 <= i < |rows| ==> (rows[i].key in a <==> rows[i].key in b)
    ensures WithoutKeys(rows, a) == WithoutKeys(rows, b)
    decreases |rows|
  {
    if rows != [] {
      assert forall i :: 0 <= i < |rows[1..]| ==> rows[1..][i] == rows[i + 1];
      WithoutKeysAgree(rows[1..], a, b);
    }
  }

  /** Deleting every key of a table leaves none of its rows. */
  lemma DeleteAllKeysEmpties(rows: seq<Row>)
    ensures WithoutKeys(rows, AllKeys(rows)) == []
  {
    var keys := AllKeys(rows);
    assert forall i :: 0 <= i < |rows| ==> rows[i].key == keys[i];
    DeleteCoveredEmpties(rows, keys);
  }

  /** A key list that covers every row of a table deletes all of it. */
  lemma {:induction false} DeleteCoveredEmpties(rows: seq<Row>, keys: seq<string>)
    requires forall i :: 0 <= i < |rows| ==> rows[i].key in keys
    ensures WithoutKeys(rows, keys) == []
    decreases |rows|
  {
    if rows != [] {
      assert forall i :: 0 <= i < |rows[1..]| ==> rows[1..][i] == rows[i + 1];
      DeleteCoveredEmpties(rows[1..], keys);
    }
  }

  /** The store's rows and a cached table of them together. */
  datatype Tables = Tables(store: seq<Row>, cache: seq<Row>)

  /** Deleting a file's embeddings through a cached table: nothing when the
      cache is empty or holds no row of the file; otherwise the keys of the
      file's cached rows leave the store and those rows leave the cache. */
  function FileRowsDeleted(store: seq<Row>, cache: seq<Row>, f: string): (t: Tables)
    ensures cache == [] ==> t == Tables(store, cache)
    ensures forall x :: x in t.cache <==> x in cache && x.filename != f
    ensures forall x :: x in t.store <==> x in store && x.key !in KeysOf(cache, f)
  {
    var keys := KeysOf(cache, f);
    if cache == [] then Tables(store, cache)
    else if keys == [] then
      assert forall i :: 0 <= i < |cache| ==> cache[i].filename != f by {
        forall i | 0 <= i < |cache| ensures cache[i].filename != f {
          assert cache[i].key !in keys;
        }
      }
      Tables(store, cache)
    else Tables(WithoutKeys(store, keys), RowsNotOf(cache, f))
  }

  /** With unique keys in the cache, the rows the cache loses are exactly the
      rows the store deletion removes from it. */
  lemma CacheFollowsStore(store: seq<Row>, cache: seq<Row>, f: string)
    requires DistinctKeys(cache)
    ensures FileRowsDeleted(store, cache, f).cache == WithoutKeys(cache, KeysOf(cache, f))
  {
    var keys := KeysOf(cache, f);
    DeleteMatchesDrop(cache, f);
    if keys == [] {
      NoKeysKeepsAll(cache);
    }
  }

  lemma {:induction false} NoKeysKeepsAll(rows: seq<Row>)
    ensures WithoutKeys(rows, []) == rows
    decreases |rows|
  {
    if rows != [] {
      NoKeysKeepsAll(rows[1..]);
      assert [rows[0]] + rows[1..] == rows;
    }
  }

  /** With unique keys, deleting one key removes exactly the row holding it,
      if there is one. */
  lemma {:induction false} DeleteOneKey(rows: seq<Row>, k: string)
    requires DistinctKeys(rows)
    ensures |WithoutKeys(rows, [k])| == |rows| - (if exists i :: 0 <= i < |rows| && rows[i].key == k then 1 else 0)
    decreases |rows|
  {
    if rows != [] {
      var tail := rows[1..];
      assert DistinctKeys(tail) by {
        forall i, j | 0 <= i < j < |tail| ensures tail[i].key != tail[j].key {
          assert tail[i] == rows[i + 1] && tail[j] == rows[j + 1];
        }
      }
      DeleteOneKey(tail, k);
      if rows[0].key == k {
        forall i | 0 <= i < |tail| ensures tail[i].key != k {
          assert tail[i] == rows[i + 1];
        }
        NoKeyKeepsAll(tail, k);
      } else {
        assert (exists i :: 0 <= i < |rows| && rows[i].key == k) <==> (exists i :: 0 <= i < |tail| && tail[i].key == k) by {
          if exists i :: 0 <= i < |rows| && rows[i].key == k {
            var i :| 0 <= i < |rows| && rows[i].key == k;
            assert tail[i - 1] == rows[i];
          }
          if exists i :: 0 <= i < |tail| && tail[i].key == k {
            var i :| 0 <= i < |tail| && tail[i].key == k;
            assert rows[i + 1] == tail[i];
          }
        }
      }
    }
  }

  /** A key no row holds deletes nothing. */
  lemma {:induction false} NoKeyKeepsAll(rows: seq<Row>, k: string)
    requires forall i :: 0 <= i < |rows| ==> rows[i].key != k
    ensures WithoutKeys(rows, [k]) == rows
    decreases |rows|
  {
    if rows != [] {
      assert forall i :: 0 <= i < |rows[1..]| ==> rows[1..][i] == rows[i + 1];
      NoKeyKeepsAll(rows[1..], k);
      assert [rows[0]] + rows[1..] == rows;
    }
  }

  /** The store: its rows in the order `get_all_documents` reports them. */
  class VectorStore {
    var rows: seq<Row>

    constructor (rows: seq<Row>)
      ensures this.rows == rows
    {
      this.rows := rows;
    }

    /** `delete_keys(keys)` */
    method DeleteKeys(keys: seq<string>)
      modifies this
      ensures rows == WithoutKeys(old(rows), keys)
    {
      rows := WithoutKeys(rows, keys);
    }

    /** `get_all_documents(k)`: at most `k` rows, as a table. */
    method GetAllDocuments(k: nat) returns (table: seq<Row>)
      ensures table == rows[..if k < |rows| then k else |rows|]
    {
      table := rows[..if k < |rows| then k else |rows|];
    }
  }
}
