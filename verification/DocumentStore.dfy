// Documents, their chunks and the vector index, as values: what one committed
// operation does to them and what every operation keeps.

module DocumentStore {
  import opened Common

  const DOCUMENT_LIMIT: nat := 20

  type Vector = seq<real>

  datatype Doc = Doc(user: int, filename: string, chunkCount: nat)
  datatype Chunk = Chunk(doc: nat, index: nat, text: string)
  datatype Entry = Entry(user: int, embedding: Vector)
  datatype VectorTable = VectorTable(dim: nat, entries: map<nat, Entry>)
  datatype Pair = Pair(model: string, dim: nat)

  // Row ids are never reused: nextDoc and nextChunk are the autoincrement marks.
  datatype Db = Db(
    docs: map<nat, Doc>,
    chunks: map<nat, Chunk>,
    vectors: Option<VectorTable>,
    pair: Option<Pair>,
    nextDoc: nat,
    nextChunk: nat)

  const EMPTY: Db := Db(map[], map[], None, None, 1, 1)

  function UserDocs(db: Db, user: int): set<nat> {
    set d | d in db.docs && db.docs[d].user == user
  }

  predicate Names(db: Db, user: int, filename: string, d: nat) {
    d in db.docs && db.docs[d].user == user && db.docs[d].filename == filename
  }

  predicate HasChunk(db: Db, d: nat, index: nat) {
    exists c :: c in db.chunks && db.chunks[c].doc == d && db.chunks[c].index == index
  }

  // -- The invariant -------------------------------------------------------------

  // A chunk belongs to a document, and is in the vector index under that
  // document's owner and at the table's dimension.
  ghost predicate ChunkOk(db: Db, c: nat) {
    c in db.chunks ==>
      var d := db.chunks[c].doc;
      && c < db.nextChunk && d in db.docs && db.chunks[c].index < db.docs[d].chunkCount
      && db.vectors.Some? && c in db.vectors.value.entries
      && db.vectors.value.entries[c].user == db.docs[d].user
      && |db.vectors.value.entries[c].embedding| == db.vectors.value.dim
  }

  // And nothing else is in the vector index.
  ghost predicate EntryOk(db: Db, c: nat) {
    db.vectors.Some? && c in db.vectors.value.entries ==> c in db.chunks
  }

  // No two chunks of a document share an index.
  ghost predicate SlotOk(db: Db, c: nat, e: nat) {
    c in db.chunks && e in db.chunks && db.chunks[c].doc == db.chunks[e].doc && db.chunks[c].index == db.chunks[e].index
    ==> c == e
  }

  // Every index below chunkCount is taken.
  ghost predicate DocOk(db: Db, d: nat) {
    d in db.docs ==>
      && d < db.nextDoc && db.docs[d].chunkCount > 0
      && forall i :: 0 <= i < db.docs[d].chunkCount ==> HasChunk(db, d, i)
  }

  ghost predicate NameOk(db: Db, d: nat, e: nat) {
    d in db.docs && e in db.docs && db.docs[d].user == db.docs[e].user && db.docs[d].filename == db.docs[e].filename
    ==> d == e
  }

  ghost predicate LimitOk(db: Db, user: int) {
    |UserDocs(db, user)| <= DOCUMENT_LIMIT
  }

  ghost predicate PairOk(db: Db) {
    db.pair.Some? ==> db.vectors.Some? && db.vectors.value.dim == db.pair.value.dim
  }

  ghost predicate Consistent(db: Db) {
    && (forall c: nat :: ChunkOk(db, c))
    && (forall c: nat :: EntryOk(db, c))
    && (forall c: nat, e: nat :: SlotOk(db, c, e))
    && (forall d: nat :: DocOk(db, d))
    && (forall d: nat, e: nat :: NameOk(db, d, e))
    && (forall user: int :: LimitOk(db, user))
    && PairOk(db)
  }

  // -- Operations ---------------------------------------------------------------

  function ChunkIds(db: Db, d: nat): set<nat> {
    set c | c in db.chunks && db.chunks[c].doc == d
  }

  // A document, its chunks and their vectors, all gone.
  function Remove(db: Db, d: nat): Db {
    var ids := ChunkIds(db, d);
    db.(docs := db.docs - {d},
        chunks := db.chunks - ids,
        vectors := if db.vectors.None? then None
                   else Some(db.vectors.value.(entries := db.vectors.value.entries - ids)))
  }

  function NewChunks(first: nat, d: nat, texts: seq<string>): map<nat, Chunk> {
    map c: nat {:trigger texts[c - first]} | first <= c < first + |texts| :: Chunk(d, c - first, texts[c - first])
  }

  function NewEntries(first: nat, user: int, vectors: seq<Vector>): map<nat, Entry> {
    map c: nat {:trigger vectors[c - first]} | first <= c < first + |vectors| :: Entry(user, vectors[c - first])
  }

  // A document with its chunks and vectors, under fresh ids.
  function Insert(db: Db, user: int, filename: string, texts: seq<string>, vectors: seq<Vector>): Db
    requires db.vectors.Some?
  {
    var table := db.vectors.value;
    db.(docs := db.docs[db.nextDoc := Doc(user, filename, |texts|)],
        chunks := db.chunks + NewChunks(db.nextChunk, db.nextDoc, texts),
        vectors := Some(table.(entries := table.entries + NewEntries(db.nextChunk, user, vectors))),
        nextDoc := db.nextDoc + 1,
        nextChunk := db.nextChunk + |texts|)
  }

  // The document a user already has under this name.
  ghost function Existing(db: Db, user: int, filename: string): (r: Option<nat>)
    ensures r.Some? ==> Names(db, user, filename, r.value)
    ensures r.None? ==> forall d: nat :: !Names(db, user, filename, d)
  {
    if d: nat :| Names(db, user, filename, d) then Some(d) else None
  }

  // Storing an indexed file: a file of the same name is replaced, otherwise the
  // user must be below the limit.
  ghost function Put(db: Db, user: int, filename: string, texts: seq<string>, vectors: seq<Vector>): Db
    requires db.vectors.Some?
  {
    var existing := Existing(db, user, filename);
    Insert(if existing.Some? then Remove(db, existing.value) else db, user, filename, texts, vectors)
  }

  ghost predicate MayPut(db: Db, user: int, filename: string, texts: seq<string>, vectors: seq<Vector>) {
    && Fits(db, texts, vectors)
    && (Existing(db, user, filename).Some? || |UserDocs(db, user)| < DOCUMENT_LIMIT)
  }

  // Deleting on behalf of a user touches only that user's document.
  function Delete(db: Db, user: int, d: nat): Db {
    if d in db.docs && db.docs[d].user == user then Remove(db, d) else db
  }

  datatype Configured = Applied(db: Db) | Refused

  // Binding the index to a model and dimension at start-up.
  function Configure(db: Db, desired: Pair): Configured {
    if db.pair == Some(desired) then
      Applied(if db.vectors.Some? then db else db.(vectors := Some(VectorTable(desired.dim, map[]))))
    else if db.docs != map[] && (db.pair.Some? || db.vectors.Some?) then Refused
    else Applied(db.(vectors := Some(VectorTable(desired.dim, map[])), pair := Some(desired)))
  }

  // -- What they keep --------------------------------------------------------------

  lemma RemoveKeepsConsistent(db: Db, d: nat)
    requires Consistent(db)
    ensures Consistent(Remove(db, d))
  {
    var after := Remove(db, d);
    forall c: nat ensures ChunkOk(after, c) && EntryOk(after, c) {
      assert ChunkOk(db, c) && EntryOk(db, c);
    }
    forall c: nat, e: nat ensures SlotOk(after, c, e) {
      assert SlotOk(db, c, e);
    }
    forall e: nat ensures DocOk(after, e) {
      assert DocOk(db, e);
      if e != d {
        RemoveKeepsChunks(db, d, e);
      }
    }
    forall e: nat, f: nat ensures NameOk(after, e, f) {
      assert NameOk(db, e, f);
    }
    forall user: int ensures LimitOk(after, user) {
      assert LimitOk(db, user);
      SubsetSize(UserDocs(after, user), UserDocs(db, user));
    }
  }

  lemma RemoveKeepsChunks(db: Db, d: nat, e: nat)
    requires d != e
    ensures forall i: nat :: HasChunk(db, e, i) ==> HasChunk(Remove(db, d), e, i)
  {
    forall i: nat | HasChunk(db, e, i) ensures HasChunk(Remove(db, d), e, i) {
      var c :| c in db.chunks && db.chunks[c].doc == e && db.chunks[c].index == i;
      assert c in Remove(db, d).chunks;
    }
  }

  lemma SubsetSize(a: set<nat>, b: set<nat>)
    requires a <= b
    ensures |a| <= |b|
  {
    assert |a + (b - a)| == |a| + |b - a| && a + (b - a) == b;
  }

  // What may be inserted: one vector of the table's dimension per text.
  ghost predicate Fits(db: Db, texts: seq<string>, vectors: seq<Vector>) {
    && db.vectors.Some? && texts != [] && |vectors| == |texts|
    && forall i :: 0 <= i < |vectors| ==> |vectors[i]| == db.vectors.value.dim
  }

  lemma InsertChunkOk(db: Db, user: int, filename: string, texts: seq<string>, vectors: seq<Vector>, c: nat)
    requires Consistent(db) && Fits(db, texts, vectors)
    ensures ChunkOk(Insert(db, user, filename, texts, vectors), c)
    ensures EntryOk(Insert(db, user, filename, texts, vectors), c)
  {
    assert ChunkOk(db, c) && EntryOk(db, c);
    if c in db.chunks {
      assert DocOk(db, db.chunks[c].doc);
    }
  }

  lemma InsertSlotOk(db: Db, user: int, filename: string, texts: seq<string>, vectors: seq<Vector>, c: nat, e: nat)
    requires Consistent(db) && Fits(db, texts, vectors)
    ensures SlotOk(Insert(db, user, filename, texts, vectors), c, e)
  {
    assert SlotOk(db, c, e) && ChunkOk(db, c) && ChunkOk(db, e);
    if c in db.chunks {
      assert DocOk(db, db.chunks[c].doc);
    }
    if e in db.chunks {
      assert DocOk(db, db.chunks[e].doc);
    }
  }

  lemma InsertDocOk(db: Db, user: int, filename: string, texts: seq<string>, vectors: seq<Vector>, d: nat)
    requires Consistent(db) && Fits(db, texts, vectors)
    ensures DocOk(Insert(db, user, filename, texts, vectors), d)
  {
    var after := Insert(db, user, filename, texts, vectors);
    assert DocOk(db, d);
    if d in after.docs {
      forall i | 0 <= i < after.docs[d].chunkCount ensures HasChunk(after, d, i) {
        if d == db.nextDoc {
          assert after.chunks[db.nextChunk + i] == Chunk(d, i, texts[i]);
        } else {
          assert HasChunk(db, d, i);
          var c :| c in db.chunks && db.chunks[c].doc == d && db.chunks[c].index == i;
          assert ChunkOk(db, c);
          assert after.chunks[c] == db.chunks[c];
        }
      }
    }
  }

  lemma InsertKeepsConsistent(db: Db, user: int, filename: string, texts: seq<string>, vectors: seq<Vector>)
    requires Consistent(db) && Fits(db, texts, vectors)
    requires |UserDocs(db, user)| < DOCUMENT_LIMIT && forall d: nat :: !Names(db, user, filename, d)
    ensures Consistent(Insert(db, user, filename, texts, vectors))
  {
    var after := Insert(db, user, filename, texts, vectors);
    forall c: nat ensures ChunkOk(after, c) && EntryOk(after, c) {
      InsertChunkOk(db, user, filename, texts, vectors, c);
    }
    forall c: nat, e: nat ensures SlotOk(after, c, e) {
      InsertSlotOk(db, user, filename, texts, vectors, c, e);
    }
    forall d: nat ensures DocOk(after, d) {
      InsertDocOk(db, user, filename, texts, vectors, d);
    }
    forall d: nat, e: nat ensures NameOk(after, d, e) {
      InsertNameOk(db, user, filename, texts, vectors, d, e);
    }
    forall u: int ensures LimitOk(after, u) {
      InsertLimitOk(db, user, filename, texts, vectors, u);
    }
  }

  lemma InsertNameOk(db: Db, user: int, filename: string, texts: seq<string>, vectors: seq<Vector>, d: nat, e: nat)
    requires Consistent(db) && db.vectors.Some? && forall d: nat :: !Names(db, user, filename, d)
    ensures NameOk(Insert(db, user, filename, texts, vectors), d, e)
  {
    assert NameOk(db, d, e) && !Names(db, user, filename, d) && !Names(db, user, filename, e);
  }

  lemma InsertAddsOne(db: Db, user: int, filename: string, texts: seq<string>, vectors: seq<Vector>, u: int)
    requires db.vectors.Some? && DocOk(db, db.nextDoc)
    ensures UserDocs(Insert(db, user, filename, texts, vectors), u)
            == UserDocs(db, u) + (if u == user then {db.nextDoc} else {})
  {
  }

  lemma InsertLimitOk(db: Db, user: int, filename: string, texts: seq<string>, vectors: seq<Vector>, u: int)
    requires Consistent(db) && db.vectors.Some? && |UserDocs(db, user)| < DOCUMENT_LIMIT
    ensures LimitOk(Insert(db, user, filename, texts, vectors), u)
  {
    assert LimitOk(db, u) && DocOk(db, db.nextDoc);
    InsertAddsOne(db, user, filename, texts, vectors, u);
  }

  lemma PutKeepsConsistent(db: Db, user: int, filename: string, texts: seq<string>, vectors: seq<Vector>)
    requires Consistent(db) && MayPut(db, user, filename, texts, vectors)
    ensures Consistent(Put(db, user, filename, texts, vectors))
  {
    var existing := Existing(db, user, filename);
    if existing.Some? {
      RemoveKeepsConsistent(db, existing.value);
      RemoveMakesRoom(db, user, filename, existing.value);
      InsertKeepsConsistent(Remove(db, existing.value), user, filename, texts, vectors);
    } else {
      InsertKeepsConsistent(db, user, filename, texts, vectors);
    }
  }

  lemma RemoveMakesRoom(db: Db, user: int, filename: string, d: nat)
    requires Consistent(db) && Names(db, user, filename, d)
    ensures |UserDocs(Remove(db, d), user)| < DOCUMENT_LIMIT
    ensures forall e: nat :: !Names(Remove(db, d), user, filename, e)
  {
    var before := Remove(db, d);
    assert LimitOk(db, user);
    assert UserDocs(db, user) == UserDocs(before, user) + {d};
    forall e: nat ensures !Names(before, user, filename, e) {
      assert NameOk(db, d, e);
    }
  }

  lemma NoDocsNoEntries(db: Db)
    requires Consistent(db) && db.docs == map[]
    ensures db.chunks == map[] && (db.vectors.Some? ==> db.vectors.value.entries == map[])
  {
    assert db.chunks == map[] by {
      forall c: nat ensures c !in db.chunks {
        assert ChunkOk(db, c);
      }
    }
    if db.vectors.Some? {
      forall c: nat ensures c !in db.vectors.value.entries {
        assert EntryOk(db, c);
      }
      assert db.vectors.value.entries == map[];
    }
  }

  lemma DocsNeedVectors(db: Db, d: nat)
    requires Consistent(db) && d in db.docs
    ensures db.vectors.Some?
  {
    assert DocOk(db, d) && HasChunk(db, d, 0);
    var c :| c in db.chunks && db.chunks[c].doc == d && db.chunks[c].index == 0;
    assert ChunkOk(db, c);
  }

  lemma SomeDoc(db: Db)
    ensures db.docs != map[] ==> exists d :: d in db.docs
  {
    assert (forall d :: d !in db.docs) ==> db.docs == map[];
  }

  // Start-up replaces a vector table only when it is empty: the entries it finds
  // are the entries it leaves. It refuses exactly when documents were indexed for
  // another model or dimension.
  lemma ConfigureKeepsEntries(db: Db, desired: Pair)
    requires Consistent(db)
    ensures var r := Configure(db, desired);
            && (r.Applied? && db.vectors.Some? ==> r.db.vectors.Some? && r.db.vectors.value.entries == db.vectors.value.entries)
            && (r.Applied? ==> r.db.docs == db.docs && r.db.chunks == db.chunks && r.db.pair == Some(desired))
            && (r.Refused? <==> db.docs != map[] && db.pair != Some(desired))
  {
    if db.docs == map[] {
      NoDocsNoEntries(db);
    } else {
      SomeDoc(db);
      var d :| d in db.docs;
      DocsNeedVectors(db, d);
    }
  }

  lemma ConfigureKeepsConsistent(db: Db, desired: Pair)
    requires Consistent(db) && Configure(db, desired).Applied?
    ensures Consistent(Configure(db, desired).db)
  {
    var after := Configure(db, desired).db;
    if after != db {
      ConfigureKeepsEntries(db, desired);
      assert db.docs == map[];
      NoDocsNoEntries(db);
      assert forall c: nat :: ChunkOk(after, c) && EntryOk(after, c);
      assert forall c: nat, e: nat :: SlotOk(after, c, e) && NameOk(after, c, e);
      assert forall d: nat :: DocOk(after, d);
      forall user: int ensures LimitOk(after, user) {
        assert UserDocs(after, user) == {};
      }
    }
  }

  // -- What a caller may rely on -----------------------------------------------------

  ghost predicate SameChunk(db: Db, after: Db, c: nat) {
    && c in db.chunks && c in after.chunks && after.chunks[c] == db.chunks[c]
    && db.vectors.Some? && after.vectors.Some? && c in db.vectors.value.entries && c in after.vectors.value.entries
    && after.vectors.value.entries[c] == db.vectors.value.entries[c]
    && db.chunks[c].doc in db.docs && db.chunks[c].doc in after.docs
    && after.docs[db.chunks[c].doc] == db.docs[db.chunks[c].doc]
  }

  // Storing a file leaves every other document of every user, with its chunks and
  // vectors, exactly as it was, and nothing of the replaced version.
  lemma PutTouchesOneFile(db: Db, user: int, filename: string, texts: seq<string>, vectors: seq<Vector>, c: nat)
    requires Consistent(db) && MayPut(db, user, filename, texts, vectors) && c in db.chunks
    ensures var after := Put(db, user, filename, texts, vectors);
            var d := db.chunks[c].doc;
            if Names(db, user, filename, d) then c !in after.chunks && c !in after.vectors.value.entries && d !in after.docs
            else SameChunk(db, after, c)
  {
    var d := db.chunks[c].doc;
    var existing := Existing(db, user, filename);
    assert ChunkOk(db, c) && EntryOk(db, c) && DocOk(db, d);
    if existing.Some? {
      assert NameOk(db, d, existing.value);
    }
  }

  // What was stored can be read back: chunk i of the new document holds text i and
  // its vector, filed under the owner.
  lemma PutStoresTheFile(db: Db, user: int, filename: string, texts: seq<string>, vectors: seq<Vector>, i: nat)
    requires Consistent(db) && MayPut(db, user, filename, texts, vectors) && i < |texts|
    ensures var after := Put(db, user, filename, texts, vectors);
            && Existing(after, user, filename) == Some(db.nextDoc)
            && after.docs[db.nextDoc] == Doc(user, filename, |texts|)
            && after.chunks[db.nextChunk + i] == Chunk(db.nextDoc, i, texts[i])
            && after.vectors.value.entries[db.nextChunk + i] == Entry(user, vectors[i])
  {
    var after := Put(db, user, filename, texts, vectors);
    PutKeepsConsistent(db, user, filename, texts, vectors);
    assert Names(after, user, filename, db.nextDoc);
    assert NameOk(after, db.nextDoc, Existing(after, user, filename).value);
  }

  lemma DeleteKeepsConsistent(db: Db, user: int, d: nat)
    requires Consistent(db)
    ensures Consistent(Delete(db, user, d))
    ensures forall other :: other != user ==> UserDocs(Delete(db, user, d), other) == UserDocs(db, other)
  {
    if d in db.docs && db.docs[d].user == user {
      RemoveKeepsConsistent(db, d);
    }
  }

  // Storing then deleting gives back the store without that file, apart from the
  // id marks.
  lemma DeleteUndoesPut(db: Db, user: int, filename: string, texts: seq<string>, vectors: seq<Vector>)
    requires Consistent(db) && MayPut(db, user, filename, texts, vectors)
    ensures var after := Delete(Put(db, user, filename, texts, vectors), user, db.nextDoc);
            var existing := Existing(db, user, filename);
            var before := if existing.Some? then Remove(db, existing.value) else db;
            after == before.(nextDoc := db.nextDoc + 1, nextChunk := db.nextChunk + |texts|)
  {
    var existing := Existing(db, user, filename);
    var before := if existing.Some? then Remove(db, existing.value) else db;
    if existing.Some? {
      RemoveKeepsConsistent(db, existing.value);
    }
    RemoveInserted(before, user, filename, texts, vectors);
  }

  lemma RemoveInserted(db: Db, user: int, filename: string, texts: seq<string>, vectors: seq<Vector>)
    requires Consistent(db) && Fits(db, texts, vectors)
    ensures Remove(Insert(db, user, filename, texts, vectors), db.nextDoc)
            == db.(nextDoc := db.nextDoc + 1, nextChunk := db.nextChunk + |texts|)
  {
    var put := Insert(db, user, filename, texts, vectors);
    var ids := ChunkIds(put, db.nextDoc);
    assert DocOk(db, db.nextDoc);
    assert forall c :: c in db.chunks ==> ChunkOk(db, c);
    forall c | c in db.vectors.value.entries ensures c in db.chunks && c < db.nextChunk {
      assert EntryOk(db, c) && ChunkOk(db, c);
    }
    assert ids == NewChunks(db.nextChunk, db.nextDoc, texts).Keys;
    assert put.docs - {db.nextDoc} == db.docs;
    assert put.chunks - ids == db.chunks;
    assert put.vectors.value.entries - ids == db.vectors.value.entries;
  }

  // -- Whole runs -------------------------------------------------------------------

  datatype Operation =
    | Store(user: int, filename: string, texts: seq<string>, vectors: seq<Vector>)
    | Drop(user: int, doc: nat)
    | StartUp(pair: Pair)
    | Fail

  // A refused or failed operation leaves the store alone.
  ghost function Apply(db: Db, op: Operation): Db {
    match op
    case Store(user, filename, texts, vectors) =>
      if MayPut(db, user, filename, texts, vectors) then Put(db, user, filename, texts, vectors) else db
    case Drop(user, d) => Delete(db, user, d)
    case StartUp(pair) => var r := Configure(db, pair); if r.Applied? then r.db else db
    case Fail => db
  }

  ghost function Run(ops: seq<Operation>): Db {
    if ops == [] then EMPTY else Apply(Run(ops[..|ops| - 1]), ops[|ops| - 1])
  }

  lemma {:induction false} EveryRunIsConsistent(ops: seq<Operation>)
    ensures Consistent(Run(ops))
  {
    if ops == [] {
      assert forall c: nat :: ChunkOk(EMPTY, c) && EntryOk(EMPTY, c) && DocOk(EMPTY, c);
      assert forall c: nat, e: nat :: SlotOk(EMPTY, c, e) && NameOk(EMPTY, c, e);
      forall user: int ensures LimitOk(EMPTY, user) {
        assert UserDocs(EMPTY, user) == {};
      }
    } else {
      var before := Run(ops[..|ops| - 1]);
      EveryRunIsConsistent(ops[..|ops| - 1]);
      match ops[|ops| - 1] {
        case Store(user, filename, texts, vectors) =>
          if MayPut(before, user, filename, texts, vectors) {
            PutKeepsConsistent(before, user, filename, texts, vectors);
          }
        case Drop(user, d) => DeleteKeepsConsistent(before, user, d);
        case StartUp(pair) =>
          if Configure(before, pair).Applied? {
            ConfigureKeepsConsistent(before, pair);
          }
        case Fail =>
      }
    }
  }
}
