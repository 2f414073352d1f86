// The tables as the bot changes them: one statement at a time, inside explicit
// transactions, any statement of which may fail.

module DocumentTables {
  import opened Common
  import opened DocumentStore

  datatype Indexed = Indexed(replaced: bool) | LimitExceeded | StoreFailed
  datatype Deleted = Deleted(found: bool) | DeleteFailed
  datatype Bound = Bound | ConfigError | BindFailed

  class Tables {
    // Whether the n-th statement fails.
    const faults: nat -> bool
    var clock: nat
    var docs: map<nat, Doc>
    var chunks: map<nat, Chunk>
    var vectors: Option<VectorTable>
    var pair: Option<Pair>
    var nextDoc: nat
    var nextChunk: nat
    // What ROLLBACK restores, while a transaction is open.
    var saved: Option<Db>

    constructor (faults: nat -> bool)
      ensures View() == EMPTY && saved.None? && this.faults == faults
    {
      this.faults := faults;
      clock, docs, chunks, vectors, pair := 0, map[], map[], None, None;
      nextDoc, nextChunk, saved := 1, 1, None;
    }

    function View(): Db
      reads this
    {
      Db(docs, chunks, vectors, pair, nextDoc, nextChunk)
    }

    // None of the statements numbered from..upTo fails.
    ghost predicate NoFault(from: nat, upTo: nat) {
      forall n: nat :: from <= n < upTo ==> !faults(n)
    }

    // -- Statements ---------------------------------------------------------------

    method Execute() returns (ok: bool)
      modifies this`clock
      ensures ok == !faults(old(clock)) && clock == old(clock) + 1
    {
      ok := !faults(clock);
      clock := clock + 1;
    }

    method Begin() returns (ok: bool)
      requires saved.None?
      modifies this`clock, this`saved
      ensures ok == !faults(old(clock)) && clock == old(clock) + 1
      ensures saved == if ok then Some(View()) else None
    {
      ok := Execute();
      if ok {
        saved := Some(View());
      }
    }

    method Commit() returns (ok: bool)
      requires saved.Some?
      modifies this`clock, this`saved
      ensures ok == !faults(old(clock)) && clock == old(clock) + 1
      ensures saved == if ok then None else old(saved)
    {
      ok := Execute();
      if ok {
        saved := None;
      }
    }

    method Rollback()
      requires saved.Some?
      modifies this
      ensures View() == old(saved).value && saved.None? && clock == old(clock)
    {
      var db := saved.value;
      docs, chunks, vectors, pair := db.docs, db.chunks, db.vectors, db.pair;
      nextDoc, nextChunk, saved := db.nextDoc, db.nextChunk, None;
    }

    method DocumentIdFor(user: int, filename: string) returns (ok: bool, id: Option<nat>)
      requires forall d: nat, e: nat :: NameOk(View(), d, e)
      modifies this`clock
      ensures clock == old(clock) + 1 && ok == NoFault(old(clock), clock)
      ensures ok ==> id == Existing(View(), user, filename)
    {
      ghost var db := View();
      ok := Execute();
      id := None;
      var candidates := set d | d in docs && docs[d].user == user && docs[d].filename == filename;
      ghost var existing := Existing(db, user, filename);
      if candidates != {} {
        assert exists d :: d in candidates by {
          assert (forall d :: d !in candidates) ==> candidates == {};
        }
        var d: nat :| d in candidates;
        id := Some(d);
        assert Names(db, user, filename, d);
        assert NameOk(db, d, existing.value);
      } else {
        assert existing.Some? ==> existing.value in candidates;
      }
    }

    method AddDocument(user: int, filename: string, chunkCount: nat) returns (ok: bool, id: nat)
      modifies this`clock, this`docs, this`nextDoc
      ensures clock == old(clock) + 1
      ensures ok <==> NoFault(old(clock), clock) && !Taken(old(View()), user, filename)
      ensures ok ==> id == old(nextDoc) && nextDoc == id + 1 && docs == old(docs)[id := Doc(user, filename, chunkCount)]
    {
      ok := Execute();
      id := nextDoc;
      // UNIQUE (user_id, filename)
      if ok && exists d | d in docs :: docs[d].user == user && docs[d].filename == filename {
        ghost var d :| d in docs && docs[d].user == user && docs[d].filename == filename;
        assert Names(View(), user, filename, d);
        ok := false;
      }
      if ok {
        docs := docs[id := Doc(user, filename, chunkCount)];
        nextDoc := id + 1;
      }
    }

    method InsertChunk(document: nat, index: nat, text: string) returns (ok: bool, id: nat)
      modifies this`clock, this`chunks, this`nextChunk
      ensures clock == old(clock) + 1 && ok == !faults(old(clock))
      ensures ok ==> id == old(nextChunk) && nextChunk == id + 1 && chunks == old(chunks)[id := Chunk(document, index, text)]
    {
      ok := Execute();
      id := nextChunk;
      if ok {
        chunks := chunks[id := Chunk(document, index, text)];
        nextChunk := id + 1;
      }
    }

    // Rows are added one by one, after the ownership check.
    method AddChunks(user: int, document: nat, texts: seq<string>) returns (ok: bool, ids: seq<nat>)
      modifies this`clock, this`chunks, this`nextChunk
      ensures old(clock) < clock
      ensures ok <==> NoFault(old(clock), clock) && document in docs && docs[document].user == user
      ensures ok ==> document in docs && docs[document].user == user
      ensures ok ==> chunks == old(chunks) + NewChunks(old(nextChunk), document, texts)
      ensures ok ==> nextChunk == old(nextChunk) + |texts|
      ensures ok ==> ids == seq(|texts|, i => old(nextChunk) + i)
      ensures !(document in docs && docs[document].user == user) ==> !ok && unchanged(this`chunks, this`nextChunk)
    {
      ids := [];
      ok := Execute();
      if !ok || document !in docs || docs[document].user != user {
        return false, [];
      }
      for i := 0 to |texts|
        invariant ok && old(clock) < clock && NoFault(old(clock), clock)
        invariant |ids| == i && forall j :: 0 <= j < i ==> ids[j] == old(nextChunk) + j
        invariant nextChunk == old(nextChunk) + i
        invariant chunks == old(chunks) + NewChunks(old(nextChunk), document, texts[..i])
      {
        ghost var before := chunks;
        var id;
        ok, id := InsertChunk(document, i, texts[i]);
        if !ok {
          return;
        }
        NewChunksSnoc(old(chunks), old(nextChunk), document, texts, i, before, chunks);
        ids := ids + [id];
      }
      assert texts[..|texts|] == texts;
    }

    method InsertVector(user: int, id: nat, embedding: Vector) returns (ok: bool)
      modifies this`clock, this`vectors
      ensures clock == old(clock) + 1
      ensures ok <==> !faults(old(clock)) && Takes(old(vectors), id, embedding)
      ensures ok ==> vectors == Some(old(vectors).value.(entries := old(vectors).value.entries[id := Entry(user, embedding)]))
      ensures !ok ==> vectors == old(vectors)
    {
      ok := Execute();
      // No such table, a wrong dimension or a primary key already there.
      if !ok || vectors.None? || |embedding| != vectors.value.dim || id in vectors.value.entries {
        return false;
      }
      var table := vectors.value;
      vectors := Some(table.(entries := table.entries[id := Entry(user, embedding)]));
    }

    // Every chunk id must belong to the user before anything is inserted.
    method AddVectors(user: int, ids: seq<nat>, embeddings: seq<Vector>) returns (ok: bool)
      requires |ids| == |embeddings|
      modifies this`clock, this`vectors
      ensures old(clock) <= clock
      ensures ok <==>
              && NoFault(old(clock), clock) && (forall i :: 0 <= i < |ids| ==> Owns(View(), user, ids[i]))
              && Insertable(old(vectors), ids, embeddings, |ids|)
      ensures (exists i :: 0 <= i < |ids| && !Owns(View(), user, ids[i])) ==> !ok && unchanged(this`vectors)
      ensures ok && ids != [] ==>
                && old(vectors).Some? && vectors.Some? && vectors.value.dim == old(vectors).value.dim
                && (forall i :: 0 <= i < |ids| ==> |embeddings[i]| == vectors.value.dim)
                && vectors.value.entries == old(vectors).value.entries + Entries(ids, user, embeddings, |ids|)
    {
      if ids == [] {
        return true;
      }
      ok := Execute();
      if !ok || !(forall i | 0 <= i < |ids| :: Owns(View(), user, ids[i])) {
        return false;
      }
      GrownByNone(vectors, user, ids, embeddings);
      for i := 0 to |ids|
        invariant ok && old(clock) < clock && NoFault(old(clock), clock)
        invariant Insertable(old(vectors), ids, embeddings, i)
        invariant vectors == Grown(old(vectors), user, ids, embeddings, i)
      {
        ok := InsertVector(user, ids[i], embeddings[i]);
        InsertableSnoc(old(vectors), user, ids, embeddings, i);
        if !ok {
          return false;
        }
      }
      assert Takes(old(vectors), ids[0], embeddings[0]);
    }

    // In the caller's transaction when one is open, else in its own.
    method DeleteDocument(user: int, document: nat) returns (r: Deleted)
      modifies this
      ensures old(clock) < clock && saved == old(saved)
      ensures r.Deleted? <==> NoFault(old(clock), clock) && Deletable(old(View()), user, document)
      ensures r.Deleted? ==> View() == Delete(old(View()), user, document)
      ensures r.Deleted? ==> (r.found <==> document in old(docs) && old(docs)[document].user == user)
      ensures r.DeleteFailed? && saved.None? ==> View() == old(View())
    {
      var own := saved.None?;
      if own {
        var begun := Begin();
        if !begun {
          return DeleteFailed;
        }
      }
      var ok, found := DeleteRows(user, document);
      if ok && own {
        ok := Commit();
      }
      if ok {
        return Deleted(found);
      }
      if own {
        Rollback();
      }
      return DeleteFailed;
    }

    method DeleteRows(user: int, document: nat) returns (ok: bool, found: bool)
      modifies this`clock, this`docs, this`chunks, this`vectors
      ensures old(clock) < clock
      ensures ok <==> NoFault(old(clock), clock) && Deletable(old(View()), user, document)
      ensures ok ==> View() == Delete(old(View()), user, document)
      ensures ok ==> (found <==> document in old(docs) && old(docs)[document].user == user)
    {
      found := false;
      ok := Execute();
      if !ok {
        return;
      }
      found := document in docs && docs[document].user == user;
      var ids := if found then ChunkIds(View(), document) else {};
      var left := ids;
      while left != {}
        invariant old(clock) < clock && NoFault(old(clock), clock)
        invariant left <= ids && docs == old(docs) && chunks == old(chunks)
        invariant vectors.None? == old(vectors).None?
        invariant vectors.None? ==> left == ids
        invariant vectors.Some? ==> vectors.value.dim == old(vectors).value.dim
        invariant vectors.Some? ==> vectors.value.entries == old(vectors).value.entries - (ids - left)
      {
        assert exists c :: c in left by {
          assert (forall c :: c !in left) ==> left == {};
        }
        var c :| c in left;
        ok := Execute();
        if !ok || vectors.None? {
          return false, false;
        }
        vectors := Some(vectors.value.(entries := vectors.value.entries - {c}));
        left := left - {c};
      }
      assert ids - left == ids;
      ok := Execute();
      if ok && found {
        docs := docs - {document};
        chunks := chunks - ids;
      }
    }

    // The store step of indexing: everything in one transaction, so a fault at any
    // statement, a full shelf or a bad vector leaves the store as it was.
    method IndexDocument(user: int, filename: string, texts: seq<string>, embeddings: seq<Vector>) returns (r: Indexed)
      requires saved.None? && Consistent(View()) && texts != []
      modifies this
      ensures saved.None? && Consistent(View())
      ensures r.Indexed? ==>
                && MayPut(old(View()), user, filename, texts, embeddings)
                && View() == Put(old(View()), user, filename, texts, embeddings)
                && (r.replaced <==> Existing(old(View()), user, filename).Some?)
      ensures !r.Indexed? ==> View() == old(View())
      ensures r.Indexed? <==> NoFault(old(clock), clock) && MayPut(old(View()), user, filename, texts, embeddings)
      ensures r.LimitExceeded? <==> NoFault(old(clock), clock) && ShelfFull(old(View()), user, filename)
      ensures r.StoreFailed? <==>
              || !NoFault(old(clock), clock)
              || (!ShelfFull(old(View()), user, filename) && !Fits(old(View()), texts, embeddings))
    {
      ghost var db := View();
      r := StoreInTransaction(user, filename, texts, embeddings);
      FailedIff(NoFault(old(clock), clock), db, user, filename, texts, embeddings, r);
      if r.Indexed? {
        PutKeepsConsistent(db, user, filename, texts, embeddings);
      }
    }

    method StoreInTransaction(user: int, filename: string, texts: seq<string>, embeddings: seq<Vector>) returns (r: Indexed)
      requires saved.None? && Consistent(View()) && texts != []
      modifies this
      ensures saved.None?
      ensures r.Indexed? <==> NoFault(old(clock), clock) && MayPut(old(View()), user, filename, texts, embeddings)
      ensures r.LimitExceeded? <==> NoFault(old(clock), clock) && ShelfFull(old(View()), user, filename)
      ensures r.Indexed? ==>
                && View() == Put(old(View()), user, filename, texts, embeddings)
                && (r.replaced <==> Existing(old(View()), user, filename).Some?)
      ensures !r.Indexed? ==> View() == old(View())
    {
      var begun := Begin();
      if !begun {
        return StoreFailed;
      }
      var stored := StoreRows(user, filename, texts, embeddings);
      r := Settle(stored);
    }

    // COMMIT after rows that went in; ROLLBACK when one did not or COMMIT fails.
    method Settle(stored: Indexed) returns (r: Indexed)
      requires saved.Some?
      modifies this
      ensures old(clock) <= clock && saved.None?
      ensures r == if NoFault(old(clock), clock) then stored else StoreFailed
      ensures View() == if r.Indexed? then old(View()) else old(saved).value
    {
      r := stored;
      if stored.Indexed? {
        var done := Commit();
        if done {
          return;
        }
        r := StoreFailed;
      }
      Rollback();
    }

    method StoreRows(user: int, filename: string, texts: seq<string>, embeddings: seq<Vector>) returns (r: Indexed)
      requires saved == Some(View()) && Consistent(View()) && texts != []
      modifies this
      ensures old(clock) < clock && saved == old(saved)
      ensures r.Indexed? <==> NoFault(old(clock), clock) && MayPut(old(View()), user, filename, texts, embeddings)
      ensures r.LimitExceeded? <==> NoFault(old(clock), clock) && ShelfFull(old(View()), user, filename)
      ensures r.Indexed? ==>
                && MayPut(old(View()), user, filename, texts, embeddings)
                && View() == Put(old(View()), user, filename, texts, embeddings)
                && (r.replaced <==> Existing(old(View()), user, filename).Some?)
    {
      ghost var db := View();
      r := ClearName(user, filename);
      if r.Indexed? {
        ClearedIsFree(db, user, filename, texts, embeddings);
        var ok := InsertRows(user, filename, texts, embeddings);
        if !ok {
          r := StoreFailed;
        }
      }
    }

    // Looks the name up and makes room: the document it names goes, else one more must
    // be allowed.
    method ClearName(user: int, filename: string) returns (r: Indexed)
      requires saved == Some(View()) && Consistent(View())
      modifies this
      ensures old(clock) < clock && saved == old(saved)
      ensures r.Indexed? <==> NoFault(old(clock), clock) && !ShelfFull(old(View()), user, filename)
      ensures r.LimitExceeded? <==> NoFault(old(clock), clock) && ShelfFull(old(View()), user, filename)
      ensures r.Indexed? ==> View() == Cleared(old(View()), user, filename)
      ensures r.Indexed? ==> (r.replaced <==> Existing(old(View()), user, filename).Some?)
    {
      ConsistentIsFresh(View());
      var ok, existing := DocumentIdFor(user, filename);
      if !ok {
        return StoreFailed;
      }
      if existing.None? {
        ok := Execute();
        if !ok {
          return StoreFailed;
        }
        r := if |UserDocs(View(), user)| >= DOCUMENT_LIMIT then LimitExceeded else Indexed(false);
      } else {
        var deleted := DeleteDocument(user, existing.value);
        r := if deleted.DeleteFailed? then StoreFailed else Indexed(true);
      }
    }

    method InsertRows(user: int, filename: string, texts: seq<string>, embeddings: seq<Vector>) returns (ok: bool)
      requires texts != [] && FreshIds(View())
      modifies this`clock, this`docs, this`nextDoc, this`chunks, this`nextChunk, this`vectors
      ensures old(clock) < clock
      ensures ok <==>
              NoFault(old(clock), clock) && !Taken(old(View()), user, filename) && Fits(old(View()), texts, embeddings)
      ensures ok ==> Fits(old(View()), texts, embeddings)
      ensures ok ==> View() == Insert(old(View()), user, filename, texts, embeddings)
    {
      ghost var db := View();
      var id, ids;
      ok, id := AddDocument(user, filename, |texts|);
      if !ok {
        return;
      }
      ok, ids := AddChunks(user, id, texts);
      if !ok || |embeddings| != |ids| {
        return false;
      }
      ghost var filed := View();
      assert filed == Described(db, user, filename, texts);
      NewRowsAreReady(db, filed, user, filename, texts, embeddings, ids);
      ok := AddVectors(user, ids, embeddings);
      if ok {
        RowsAreInserted(db, View(), user, filename, texts, embeddings, ids);
      }
    }

    // Start-up: bind the index to a model and a dimension, or refuse.
    method ApplyEmbeddingPair(desired: Option<Pair>) returns (r: Bound)
      requires saved.None? && Consistent(View())
      modifies this
      ensures saved.None? && Consistent(View())
      ensures r == Bound ==>
                if desired.None? then View() == old(View())
                else Configure(old(View()), desired.value) == Applied(View())
      ensures old(clock) <= clock
      ensures r == Bound <==>
              NoFault(old(clock), clock) && (desired.Some? ==> Configure(old(View()), desired.value).Applied?)
      ensures r == ConfigError <==>
              NoFault(old(clock), clock) && desired.Some? && Configure(old(View()), desired.value).Refused?
      ensures r == BindFailed <==> !NoFault(old(clock), clock)
      ensures r != Bound ==> View() == old(View())
    {
      if desired.None? {
        return Bound;
      }
      ghost var db := View();
      if pair == desired {
        // CREATE ... IF NOT EXISTS
        var ok := Execute();
        var wanted := desired.value;
        if !ok {
          return BindFailed;
        }
        vectors := if vectors.None? then Some(VectorTable(wanted.dim, map[])) else vectors;
      } else {
        if pair.Some? && docs != map[] {
          return ConfigError;
        }
        var begun := Begin();
        if !begun {
          return BindFailed;
        }
        if pair.None? && vectors.Some? && docs != map[] {
          Rollback();
          return ConfigError;
        }
        var ok := Rebuild(desired.value);
        if ok {
          ok := Commit();
        }
        if !ok {
          Rollback();
          return BindFailed;
        }
      }
      ConfigureKeepsConsistent(db, desired.value);
      r := Bound;
    }

    // DROP, CREATE and the new state key, each of which may fail.
    method Rebuild(desired: Pair) returns (ok: bool)
      modifies this`clock, this`vectors, this`pair
      ensures old(clock) < clock && ok == NoFault(old(clock), clock)
      ensures ok ==> vectors == Some(VectorTable(desired.dim, map[])) && pair == Some(desired)
    {
      ok := Execute();
      if !ok {
        return;
      }
      vectors, pair := None, None;
      ok := Execute();
      if !ok {
        return;
      }
      vectors := Some(VectorTable(desired.dim, map[]));
      ok := Execute();
      pair := Some(desired);
    }
  }

  ghost predicate Taken(db: Db, user: int, filename: string) {
    exists d: nat :: Names(db, user, filename, d)
  }

  // A new name on a full shelf.
  ghost predicate ShelfFull(db: Db, user: int, filename: string) {
    Existing(db, user, filename).None? && |UserDocs(db, user)| >= DOCUMENT_LIMIT
  }

  // The vectors of a document with chunks are deleted from a table that is there.
  ghost predicate Deletable(db: Db, user: int, d: nat) {
    d in db.docs && db.docs[d].user == user && ChunkIds(db, d) != {} ==> db.vectors.Some?
  }

  // The next chunk id and those above it are in no use.
  ghost predicate FreshIds(db: Db) {
    db.vectors.Some? ==> forall c :: c in db.vectors.value.entries ==> c < db.nextChunk
  }

  predicate Takes(table: Option<VectorTable>, id: nat, embedding: Vector) {
    table.Some? && |embedding| == table.value.dim && id !in table.value.entries
  }

  // The table takes each of the first n vectors, whose ids all differ.
  ghost predicate Insertable(table: Option<VectorTable>, ids: seq<nat>, embeddings: seq<Vector>, n: nat)
    requires n <= |ids| == |embeddings|
  {
    && (forall i :: 0 <= i < n ==> Takes(table, ids[i], embeddings[i]))
    && (forall i, j :: 0 <= i < j < n ==> ids[i] != ids[j])
  }

  ghost function Grown(table: Option<VectorTable>, user: int, ids: seq<nat>, embeddings: seq<Vector>, n: nat): Option<VectorTable>
    requires n <= |ids| == |embeddings|
  {
    if table.None? then None
    else Some(table.value.(entries := table.value.entries + Entries(ids, user, embeddings, n)))
  }

  lemma {:induction false} EntriesKeys(ids: seq<nat>, user: int, embeddings: seq<Vector>, n: nat, id: nat)
    requires n <= |ids| == |embeddings|
    ensures id in Entries(ids, user, embeddings, n) <==> id in ids[..n]
  {
    if n > 0 {
      EntriesKeys(ids, user, embeddings, n - 1, id);
      assert ids[..n] == ids[..n - 1] + [ids[n - 1]];
    }
  }

  // One more vector goes in exactly when the grown table takes it.
  lemma InsertableSnoc(table: Option<VectorTable>, user: int, ids: seq<nat>, embeddings: seq<Vector>, n: nat)
    requires n < |ids| == |embeddings| && Insertable(table, ids, embeddings, n)
    ensures Takes(Grown(table, user, ids, embeddings, n), ids[n], embeddings[n])
            <==> Insertable(table, ids, embeddings, n + 1)
    ensures Grown(table, user, ids, embeddings, n).Some? ==>
              var grown := Grown(table, user, ids, embeddings, n).value;
              Grown(table, user, ids, embeddings, n + 1) ==
              Some(grown.(entries := grown.entries[ids[n] := Entry(user, embeddings[n])]))
  {
    EntriesKeys(ids, user, embeddings, n, ids[n]);
    if table.Some? {
      var entries, entry := table.value.entries, Entry(user, embeddings[n]);
      assert entries + Entries(ids, user, embeddings, n + 1) == (entries + Entries(ids, user, embeddings, n))[ids[n] := entry];
    }
  }

  lemma GrownByNone(table: Option<VectorTable>, user: int, ids: seq<nat>, embeddings: seq<Vector>)
    requires |ids| == |embeddings|
    ensures Grown(table, user, ids, embeddings, 0) == table
  {
    if table.Some? {
      assert table.value.entries + map[] == table.value.entries;
    }
  }

  // Vectors under fresh consecutive ids go in exactly when they have the table's dimension.
  lemma FreshAreInsertable(db: Db, ids: seq<nat>, embeddings: seq<Vector>)
    requires FreshIds(db) && ids == seq(|embeddings|, i => db.nextChunk + i) && ids != []
    ensures Insertable(db.vectors, ids, embeddings, |ids|) <==>
            db.vectors.Some? && forall i :: 0 <= i < |embeddings| ==> |embeddings[i]| == db.vectors.value.dim
  {
    if Insertable(db.vectors, ids, embeddings, |ids|) {
      assert Takes(db.vectors, ids[0], embeddings[0]);
      assert forall i :: 0 <= i < |embeddings| ==> Takes(db.vectors, ids[i], embeddings[i]);
    }
  }

  // The tables with a document and its chunks but not yet their vectors.
  ghost function Described(db: Db, user: int, filename: string, texts: seq<string>): Db {
    db.(docs := db.docs[db.nextDoc := Doc(user, filename, |texts|)],
        chunks := db.chunks + NewChunks(db.nextChunk, db.nextDoc, texts),
        nextDoc := db.nextDoc + 1,
        nextChunk := db.nextChunk + |texts|)
  }

  lemma NewRowsAreReady(db: Db, filed: Db, user: int, filename: string, texts: seq<string>, embeddings: seq<Vector>,
                        ids: seq<nat>)
    requires FreshIds(db) && texts != [] && |embeddings| == |texts| && filed == Described(db, user, filename, texts)
    requires ids == seq(|texts|, i => db.nextChunk + i)
    ensures forall i :: 0 <= i < |ids| ==> Owns(filed, user, ids[i])
    ensures Insertable(filed.vectors, ids, embeddings, |ids|) <==> Fits(db, texts, embeddings)
  {
    FreshAreInsertable(db, ids, embeddings);
    forall i | 0 <= i < |ids| ensures Owns(filed, user, ids[i]) {
      assert filed.chunks[ids[i]] == Chunk(db.nextDoc, i, texts[i]);
    }
  }

  lemma RowsAreInserted(db: Db, after: Db, user: int, filename: string, texts: seq<string>, embeddings: seq<Vector>,
                        ids: seq<nat>)
    requires db.vectors.Some? && |embeddings| == |texts| && ids == seq(|texts|, i => db.nextChunk + i)
    requires after == Described(db, user, filename, texts).(vectors := after.vectors) && after.vectors.Some?
    requires after.vectors.value.dim == db.vectors.value.dim
    requires after.vectors.value.entries == db.vectors.value.entries + Entries(ids, user, embeddings, |ids|)
    ensures after == Insert(db, user, filename, texts, embeddings)
  {
    EntriesInOrder(db.nextChunk, user, embeddings, ids, |ids|);
    assert embeddings[..|ids|] == embeddings;
  }

  lemma ConsistentIsFresh(db: Db)
    requires Consistent(db)
    ensures FreshIds(db) && forall user, d :: Deletable(db, user, d)
  {
    forall c: nat ensures db.vectors.Some? && c in db.vectors.value.entries ==> c < db.nextChunk {
      assert EntryOk(db, c) && ChunkOk(db, c);
    }
    forall user, d ensures Deletable(db, user, d) {
      if ChunkIds(db, d) != {} {
        var c :| c in ChunkIds(db, d);
        assert ChunkOk(db, c);
      }
    }
  }

  // What is neither stored nor refused for a full shelf has met a fault or does not fit.
  lemma FailedIff(clean: bool, db: Db, user: int, filename: string, texts: seq<string>, embeddings: seq<Vector>, r: Indexed)
    requires r.Indexed? <==> clean && MayPut(db, user, filename, texts, embeddings)
    requires r.LimitExceeded? <==> clean && ShelfFull(db, user, filename)
    ensures r.StoreFailed? <==> !clean || (!ShelfFull(db, user, filename) && !Fits(db, texts, embeddings))
  {
  }

  ghost function Cleared(db: Db, user: int, filename: string): Db {
    var existing := Existing(db, user, filename);
    if existing.Some? then Remove(db, existing.value) else db
  }

  lemma ClearedIsFree(db: Db, user: int, filename: string, texts: seq<string>, embeddings: seq<Vector>)
    requires Consistent(db)
    ensures !Taken(Cleared(db, user, filename), user, filename) && FreshIds(Cleared(db, user, filename))
    ensures Fits(Cleared(db, user, filename), texts, embeddings) <==> Fits(db, texts, embeddings)
    ensures Fits(db, texts, embeddings) ==>
              Put(db, user, filename, texts, embeddings) == Insert(Cleared(db, user, filename), user, filename, texts, embeddings)
  {
    ConsistentIsFresh(db);
    var existing := Existing(db, user, filename);
    if existing.Some? {
      RemovedIsFree(db, user, filename, existing.value);
    }
  }

  // A name is free once its document is gone, and what fits is unchanged.
  lemma RemovedIsFree(db: Db, user: int, filename: string, d: nat)
    requires Consistent(db) && Names(db, user, filename, d)
    ensures !Taken(Remove(db, d), user, filename) && FreshIds(Remove(db, d))
    ensures forall texts, embeddings :: Fits(Remove(db, d), texts, embeddings) <==> Fits(db, texts, embeddings)
  {
    ConsistentIsFresh(db);
    forall e: nat ensures !Names(Remove(db, d), user, filename, e) {
      assert NameOk(db, d, e);
    }
  }

  predicate Owns(db: Db, user: int, c: nat) {
    c in db.chunks && db.chunks[c].doc in db.docs && db.docs[db.chunks[c].doc].user == user
  }

  lemma NewChunksSnoc(chunks: map<nat, Chunk>, first: nat, d: nat, texts: seq<string>, i: nat,
                      before: map<nat, Chunk>, after: map<nat, Chunk>)
    requires i < |texts| && before == chunks + NewChunks(first, d, texts[..i])
    requires after == before[first + i := Chunk(d, i, texts[i])]
    ensures after == chunks + NewChunks(first, d, texts[..i + 1])
  {
    assert texts[..i + 1] == texts[..i] + [texts[i]];
    assert NewChunks(first, d, texts[..i + 1]) == NewChunks(first, d, texts[..i])[first + i := Chunk(d, i, texts[i])];
  }

  function Entries(ids: seq<nat>, user: int, embeddings: seq<Vector>, n: nat): map<nat, Entry>
    requires n <= |ids| == |embeddings|
  {
    if n == 0 then map[] else Entries(ids, user, embeddings, n - 1)[ids[n - 1] := Entry(user, embeddings[n - 1])]
  }

  lemma {:induction false} EntriesInOrder(first: nat, user: int, embeddings: seq<Vector>, ids: seq<nat>, n: nat)
    requires n <= |ids| == |embeddings| && ids == seq(|embeddings|, i => first + i)
    ensures Entries(ids, user, embeddings, n) == NewEntries(first, user, embeddings[..n])
  {
    if n > 0 {
      EntriesInOrder(first, user, embeddings, ids, n - 1);
      assert embeddings[..n] == embeddings[..n - 1] + [embeddings[n - 1]];
    }
  }
}
