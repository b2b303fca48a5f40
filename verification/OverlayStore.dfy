/**
 * The bench's trie storage: an overlay of pending writes and removals over a key-value
 * database, and the flush that turns the overlay into one transaction in whatever order the
 * hash map yields its entries.
 */
module OverlayStore {
  import opened Wrappers

  type Bytes = seq<bv8>
  type Hash = Bytes
  type Prefix = Bytes
  type Database = map<Bytes, Bytes>
  type Overlay = map<Bytes, Option<Bytes>>

  // ---------------------------------------------------------------- what a reader sees

  function DbGet(db: Database, key: Bytes): Option<Bytes> {
    if key in db then Some(db[key]) else None
  }

  /** The overlay decides for the keys it holds, a pending removal included. */
  function View(db: Database, overlay: Overlay, key: Bytes): Option<Bytes> {
    if key in overlay then overlay[key] else DbGet(db, key)
  }

  /** An operation on an already prefixed key. */
  datatype Op = Emplace(key: Bytes, value: Bytes) | Remove(key: Bytes)

  function Pending(op: Op): Option<Bytes> {
    match op
    case Emplace(_, value) => Some(value)
    case Remove(_) => None
  }

  function ApplyOp(overlay: Overlay, op: Op): Overlay { overlay[op.key := Pending(op)] }

  function ApplyOps(overlay: Overlay, ops: seq<Op>): Overlay {
    if ops == [] then overlay else ApplyOp(ApplyOps(overlay, ops[..|ops| - 1]), ops[|ops| - 1])
  }

  /** The last operation on the key, if there is one. */
  function LastOn(ops: seq<Op>, key: Bytes): Option<Op> {
    if ops == [] then None
    else if ops[|ops| - 1].key == key then Some(ops[|ops| - 1])
    else LastOn(ops[..|ops| - 1], key)
  }

  /** After any operations, a read answers with the last operation on its key, or with what was
      readable before. */
  lemma {:induction false} ViewIsLastOperation(db: Database, overlay: Overlay, ops: seq<Op>, key: Bytes)
    ensures View(db, ApplyOps(overlay, ops), key)
         == match LastOn(ops, key) case Some(op) => Pending(op) case None => View(db, overlay, key)
    decreases |ops|
  {
    if ops == [] {
    } else {
      ViewIsLastOperation(db, overlay, ops[..|ops| - 1], key);
    }
  }

  // ---------------------------------------------------------------- the flush

  datatype DbOp = Put(key: Bytes, value: Bytes) | Delete(key: Bytes)

  function WriteOp(db: Database, op: DbOp): Database {
    match op
    case Put(key, value) => db[key := value]
    case Delete(key) => db - {key}
  }

  /** A database applies the operations of a transaction one after another. */
  function Write(db: Database, tx: seq<DbOp>): Database {
    if tx == [] then db else WriteOp(Write(db, tx[..|tx| - 1]), tx[|tx| - 1])
  }

  function ToDbOp(key: Bytes, value: Option<Bytes>): DbOp {
    match value
    case Some(v) => Put(key, v)
    case None => Delete(key)
  }

  /** The transaction holds one operation for each overlay entry, in any order. */
  ghost predicate Enumerates(tx: seq<DbOp>, overlay: Overlay) {
    && (forall i :: 0 <= i < |tx| ==> tx[i].key in overlay && tx[i] == ToDbOp(tx[i].key, overlay[tx[i].key]))
    && (forall key :: key in overlay ==> exists i :: 0 <= i < |tx| && tx[i].key == key)
  }

  /** Operations that agree with the overlay leave each key as they say, in any order. */
  lemma {:induction false} WriteAgreeing(db: Database, overlay: Overlay, tx: seq<DbOp>, key: Bytes)
    requires forall i :: 0 <= i < |tx| ==> tx[i].key in overlay && tx[i] == ToDbOp(tx[i].key, overlay[tx[i].key])
    ensures DbGet(Write(db, tx), key)
         == if exists i :: 0 <= i < |tx| && tx[i].key == key then overlay[key] else DbGet(db, key)
    decreases |tx|
  {
    if tx == [] {
    } else {
      var front, last := tx[..|tx| - 1], tx[|tx| - 1];
      assert forall i :: 0 <= i < |front| ==> front[i] == tx[i];
      WriteAgreeing(db, overlay, front, key);
      if last.key == key {
        assert tx[|tx| - 1].key == key;
      } else if i :| 0 <= i < |tx| && tx[i].key == key {
        assert front[i].key == key;
      }
    }
  }

  /** Flushing in any iteration order gives a database that answers every key as the overlay
      view did. */
  lemma FlushPreservesView(db: Database, overlay: Overlay, tx: seq<DbOp>, key: Bytes)
    requires Enumerates(tx, overlay)
    ensures DbGet(Write(db, tx), key) == View(db, overlay, key)
  {
    WriteAgreeing(db, overlay, tx, key);
    if key in overlay {
      var i :| 0 <= i < |tx| && tx[i].key == key;
    }
  }

  lemma SameAnswersSameDatabase(db: Database, other: Database)
    requires forall key :: DbGet(db, key) == DbGet(other, key)
    ensures db == other
  {
    forall key ensures key in db <==> key in other && (key in db ==> db[key] == other[key]) {
      assert DbGet(db, key) == DbGet(other, key);
    }
    assert db.Keys == other.Keys;
  }

  /** Two iteration orders of the same overlay produce the same database. */
  lemma FlushIgnoresOrder(db: Database, overlay: Overlay, tx: seq<DbOp>, other: seq<DbOp>)
    requires Enumerates(tx, overlay) && Enumerates(other, overlay)
    ensures Write(db, tx) == Write(db, other)
  {
    forall key ensures DbGet(Write(db, tx), key) == DbGet(Write(db, other), key) {
      FlushPreservesView(db, overlay, tx, key);
      FlushPreservesView(db, overlay, other, key);
    }
    SameAnswersSameDatabase(Write(db, tx), Write(db, other));
  }

  /** From any starting point, operations then flush: each key answers with its last operation. */
  lemma OperationsThenFlush(db: Database, ops: seq<Op>, tx: seq<DbOp>, key: Bytes)
    requires Enumerates(tx, ApplyOps(map[], ops))
    ensures DbGet(Write(db, tx), key)
         == match LastOn(ops, key) case Some(op) => Pending(op) case None => DbGet(db, key)
  {
    FlushPreservesView(db, ApplyOps(map[], ops), tx, key);
    ViewIsLastOperation(db, map[], ops, key);
  }

  // ---------------------------------------------------------------- the storage object

  class SimpleTrie {
    var db: Database
    var overlay: Overlay
    const prefixedKey: (Hash, Prefix) -> Bytes
    const hash: Bytes -> Hash

    constructor (db: Database, overlay: Overlay, prefixedKey: (Hash, Prefix) -> Bytes, hash: Bytes -> Hash)
      ensures this.db == db && this.overlay == overlay && this.prefixedKey == prefixedKey && this.hash == hash
    {
      this.db := db;
      this.overlay := overlay;
      this.prefixedKey := prefixedKey;
      this.hash := hash;
    }

    method Get(key: Hash, prefix: Prefix) returns (r: Option<Bytes>)
      ensures r == View(db, overlay, prefixedKey(key, prefix))
    {
      var k := prefixedKey(key, prefix);
      if k in overlay {
        return overlay[k];
      }
      return DbGet(db, k);
    }

    method Contains(key: Hash, prefix: Prefix) returns (r: bool)
      ensures r <==> View(db, overlay, prefixedKey(key, prefix)).Some?
    {
      var got := Get(key, prefix);
      return got.Some?;
    }

    method EmplaceAt(key: Hash, prefix: Prefix, value: Bytes)
      modifies this`overlay
      ensures overlay == ApplyOp(old(overlay), Emplace(prefixedKey(key, prefix), value))
      ensures View(db, overlay, prefixedKey(key, prefix)) == Some(value)
    {
      overlay := overlay[prefixedKey(key, prefix) := Some(value)];
    }

    /** The stored value is found again under the returned hash. */
    method Insert(prefix: Prefix, value: Bytes) returns (key: Hash)
      modifies this`overlay
      ensures key == hash(value)
      ensures overlay == ApplyOp(old(overlay), Emplace(prefixedKey(key, prefix), value))
      ensures View(db, overlay, prefixedKey(key, prefix)) == Some(value)
    {
      key := hash(value);
      EmplaceAt(key, prefix, value);
    }

    method RemoveAt(key: Hash, prefix: Prefix)
      modifies this`overlay
      ensures overlay == ApplyOp(old(overlay), Remove(prefixedKey(key, prefix)))
      ensures View(db, overlay, prefixedKey(key, prefix)).None?
    {
      overlay := overlay[prefixedKey(key, prefix) := None];
    }

    /** The flush at the end of `generate_trie` and of the write benchmark: entries in an
        arbitrary order, then one write. */
    method Flush()
      modifies this
      ensures overlay == map[]
      ensures forall key :: DbGet(db, key) == View(old(db), old(overlay), key)
      ensures forall key :: View(db, overlay, key) == View(old(db), old(overlay), key)
    {
      var transaction: seq<DbOp> := [];
      var remaining := overlay.Keys;
      while remaining != {}
        invariant remaining <= overlay.Keys
        invariant forall i :: 0 <= i < |transaction| ==>
                    && transaction[i].key in overlay
                    && transaction[i] == ToDbOp(transaction[i].key, overlay[transaction[i].key])
        invariant forall key :: key in overlay && key !in remaining ==>
                    exists i :: 0 <= i < |transaction| && transaction[i].key == key
        decreases |remaining|
      {
        var key :| key in remaining;
        ghost var before := transaction;
        transaction := transaction + [ToDbOp(key, overlay[key])];
        assert transaction[|before|].key == key;
        assert forall i :: 0 <= i < |before| ==> transaction[i] == before[i];
        remaining := remaining - {key};
      }
      forall key ensures DbGet(Write(db, transaction), key) == View(db, overlay, key) {
        FlushPreservesView(db, overlay, transaction, key);
      }
      db := Write(db, transaction);
      overlay := map[];
    }
  }
}
