/** The memory index: the chunks table, the contentless full-text table and the embedding table. */
module MemoryIndexes {
  import opened Prelude
  import opened ChunkIds
  import Chunkers

  type Chunk = Chunkers.Chunk

  type Embedding = seq<real>

  datatype Row = Row(
    rowid: nat, path: string, startLine: nat, endLine: nat, text: string, hash: string,
    source: string, createdAt: int, updatedAt: int, accessCount: nat, lastAccessed: Option<int>)

  datatype ReindexResult = ReindexResult(added: nat, updated: nat, removed: nat)

  /** `hash` digests chunk text, `embed` is the embedding model, `vecAvailable` says whether the vector table exists. */
  datatype Settings = Settings(hash: string -> string, embed: string -> Embedding, vecAvailable: bool)
  {
    ghost predicate Collisionless() {
      forall a, b :: hash(a) == hash(b) ==> a == b
    }
  }

  datatype Tables = Tables(
    chunks: map<string, Row>, fts: multiset<(nat, string)>, vec: map<string, Embedding>, nextRowid: nat)

  function Lookup<V>(m: map<string, V>, id: string): Option<V> {
    if id in m then Some(m[id]) else None
  }

  // ---------------------------------------------------------------------
  // Agreement of the three tables
  // ---------------------------------------------------------------------

  ghost function Entry(r: Row): (nat, string) {
    (r.rowid, r.text)
  }

  ghost function Entries(chunks: map<string, Row>): set<(nat, string)> {
    set id | id in chunks :: Entry(chunks[id])
  }

  /** The row's id belongs to its path, its rowid has been handed out and its hash is that of its text. */
  ghost predicate RowOk(s: Settings, t: Tables, id: string) {
    id in t.chunks ==>
      var r := t.chunks[id];
      r.rowid < t.nextRowid && r.hash == s.hash(r.text) && NumberIn(r.path, id).Some?
  }

  ghost predicate RowidsDiffer(t: Tables, a: string, b: string) {
    a in t.chunks && b in t.chunks && a != b ==> t.chunks[a].rowid != t.chunks[b].rowid
  }

  /** The embedding belongs to a live chunk and was made from its current text. */
  ghost predicate VectorOk(s: Settings, t: Tables, id: string) {
    id in t.vec ==> id in t.chunks && t.vec[id] == s.embed(t.chunks[id].text)
  }

  /** The full-text table holds the entry once if some row has this rowid and text, and not at all otherwise. */
  ghost predicate FtsOk(t: Tables, e: (nat, string)) {
    t.fts[e] == if e in Entries(t.chunks) then 1 else 0
  }

  /** The rows are well formed, and the full-text table is exactly rowid to current text. */
  ghost predicate Agree(s: Settings, t: Tables) {
    && (forall id {:trigger RowOk(s, t, id)} :: RowOk(s, t, id))
    && (forall a, b {:trigger RowidsDiffer(t, a, b)} :: RowidsDiffer(t, a, b))
    && (forall e {:trigger FtsOk(t, e)} :: FtsOk(t, e))
    && (!s.vecAvailable ==> t.vec == map[])
  }

  /** No embedding is stale or orphaned. */
  ghost predicate InSync(s: Settings, t: Tables) {
    forall id {:trigger VectorOk(s, t, id)} :: VectorOk(s, t, id)
  }

  // ---------------------------------------------------------------------
  // One row at a time
  // ---------------------------------------------------------------------

  function Changed(s: Settings, row: Row, c: Chunk, now: int): Row {
    row.(text := c.text, hash := s.hash(c.text), startLine := c.startLine, endLine := c.endLine, updatedAt := now)
  }

  function Fresh(s: Settings, rowid: nat, path: string, c: Chunk, source: string, now: int): Row {
    Row(rowid, path, c.startLine, c.endLine, c.text, s.hash(c.text), source, now, now, 0, None)
  }

  function DropVector(s: Settings, vec: map<string, Embedding>, id: string): map<string, Embedding> {
    if s.vecAvailable then vec - {id} else vec
  }

  ghost function UpdateRow(s: Settings, t: Tables, id: string, c: Chunk, now: int): Tables
    requires id in t.chunks
  {
    var row := t.chunks[id];
    Tables(t.chunks[id := Changed(s, row, c, now)],
           t.fts - multiset{(row.rowid, row.text)} + multiset{(row.rowid, c.text)},
           DropVector(s, t.vec, id), t.nextRowid)
  }

  ghost function InsertRow(s: Settings, t: Tables, id: string, path: string, c: Chunk, source: string, now: int): Tables
  {
    Tables(t.chunks[id := Fresh(s, t.nextRowid, path, c, source, now)],
           t.fts + multiset{(t.nextRowid, c.text)}, t.vec, t.nextRowid + 1)
  }

  ghost function DeleteRow(s: Settings, t: Tables, id: string): Tables
    requires id in t.chunks
  {
    var row := t.chunks[id];
    Tables(t.chunks - {id}, t.fts - multiset{(row.rowid, row.text)}, DropVector(s, t.vec, id), t.nextRowid)
  }

  lemma EntriesUpdate(s: Settings, t: Tables, id: string, r: Row)
    requires Agree(s, t)
    ensures Entries(t.chunks[id := r]) ==
            (if id in t.chunks then Entries(t.chunks) - {Entry(t.chunks[id])} else Entries(t.chunks)) + {Entry(r)}
  {
    var chunks' := t.chunks[id := r];
    var expected :=
      (if id in t.chunks then Entries(t.chunks) - {Entry(t.chunks[id])} else Entries(t.chunks)) + {Entry(r)};
    forall e | e in Entries(chunks') ensures e in expected {
      var a :| a in chunks' && Entry(chunks'[a]) == e;
      assert RowidsDiffer(t, a, id);
    }
    forall e | e in expected ensures e in Entries(chunks') {
      if e == Entry(r) {
        assert id in chunks' && Entry(chunks'[id]) == e;
      } else {
        var a :| a in t.chunks && Entry(t.chunks[a]) == e;
        assert a in chunks';
      }
    }
  }

  lemma EntriesRemove(s: Settings, t: Tables, id: string)
    requires Agree(s, t) && id in t.chunks
    ensures Entries(t.chunks - {id}) == Entries(t.chunks) - {Entry(t.chunks[id])}
  {
    var chunks' := t.chunks - {id};
    forall e | e in Entries(chunks') ensures e in Entries(t.chunks) - {Entry(t.chunks[id])} {
      var a :| a in chunks' && Entry(chunks'[a]) == e;
      assert RowidsDiffer(t, a, id);
    }
    forall e | e in Entries(t.chunks) - {Entry(t.chunks[id])} ensures e in Entries(chunks') {
      var a :| a in t.chunks && Entry(t.chunks[a]) == e;
      assert a in chunks';
    }
  }

  /** An entry with a rowid no other row has is not in the table. */
  lemma EntryAbsent(t: Tables, e: (nat, string))
    requires forall a :: a in t.chunks ==> Entry(t.chunks[a]) != e
    ensures e !in Entries(t.chunks)
  {
  }

  lemma UpdateAgrees(s: Settings, t: Tables, id: string, c: Chunk, now: int)
    requires Agree(s, t) && id in t.chunks && t.chunks[id].text != c.text
    ensures Agree(s, UpdateRow(s, t, id, c, now))
  {
    var row, r := t.chunks[id], Changed(s, t.chunks[id], c, now);
    var t' := UpdateRow(s, t, id, c, now);
    EntriesUpdate(s, t, id, r);
    forall a | a in t.chunks ensures Entry(t.chunks[a]) != Entry(r) {
      assert RowidsDiffer(t, a, id);
    }
    EntryAbsent(t, Entry(r));
    forall e ensures FtsOk(t', e) {
      assert FtsOk(t, e);
    }
    forall a ensures RowOk(s, t', a) {
      assert RowOk(s, t, a);
    }
    forall a, b ensures RowidsDiffer(t', a, b) {
      assert RowidsDiffer(t, a, b);
    }
  }

  lemma InsertAgrees(s: Settings, t: Tables, path: string, i: nat, c: Chunk, source: string, now: int)
    requires Agree(s, t) && ChunkId(path, i) !in t.chunks
    ensures Agree(s, InsertRow(s, t, ChunkId(path, i), path, c, source, now))
  {
    var id, r := ChunkId(path, i), Fresh(s, t.nextRowid, path, c, source, now);
    var t' := InsertRow(s, t, id, path, c, source, now);
    NumberOfId(path, i);
    EntriesUpdate(s, t, id, r);
    forall a | a in t.chunks ensures Entry(t.chunks[a]) != Entry(r) {
      assert RowOk(s, t, a);
    }
    EntryAbsent(t, Entry(r));
    forall e ensures FtsOk(t', e) {
      assert FtsOk(t, e);
    }
    forall a ensures RowOk(s, t', a) {
      assert RowOk(s, t, a);
    }
    forall a, b ensures RowidsDiffer(t', a, b) {
      assert RowidsDiffer(t, a, b) && RowOk(s, t, a) && RowOk(s, t, b);
    }
  }

  lemma DeleteAgrees(s: Settings, t: Tables, id: string)
    requires Agree(s, t) && id in t.chunks
    ensures Agree(s, DeleteRow(s, t, id))
  {
    var t' := DeleteRow(s, t, id);
    EntriesRemove(s, t, id);
    forall e ensures FtsOk(t', e) {
      assert FtsOk(t, e);
    }
    forall a ensures RowOk(s, t', a) {
      assert RowOk(s, t, a);
    }
    forall a, b ensures RowidsDiffer(t', a, b) {
      assert RowidsDiffer(t, a, b);
    }
  }

  // ---------------------------------------------------------------------
  // What reindexing a file must do
  // ---------------------------------------------------------------------

  /** Chunks among the first `n` that the table did not have. */
  ghost function NewCount(chunks: map<string, Row>, path: string, n: nat): nat {
    if n == 0 then 0 else NewCount(chunks, path, n - 1) + if ChunkId(path, n - 1) in chunks then 0 else 1
  }

  /** Chunks among the first `n` that the table had with another hash. */
  ghost function ChangedCount(s: Settings, chunks: map<string, Row>, path: string, cs: seq<Chunk>, n: nat): nat
    requires n <= |cs|
  {
    if n == 0 then 0
    else
      var id := ChunkId(path, n - 1);
      ChangedCount(s, chunks, path, cs, n - 1)
      + if id in chunks && chunks[id].hash != s.hash(cs[n - 1].text) then 1 else 0
  }

  /** The row of chunk number `i`: kept as it is when the hash is unchanged, otherwise rewritten or created. */
  ghost function ChunkRow(s: Settings, before: Tables, path: string, cs: seq<Chunk>, source: string, now: int,
                          i: nat): Row
    requires i < |cs|
  {
    var id := ChunkId(path, i);
    if id !in before.chunks then Fresh(s, before.nextRowid + NewCount(before.chunks, path, i), path, cs[i], source, now)
    else if before.chunks[id].hash == s.hash(cs[i].text) then before.chunks[id]
    else Changed(s, before.chunks[id], cs[i], now)
  }

  /** The row under `id` once the first `n` chunks have been entered. */
  ghost function EnteredRow(s: Settings, before: Tables, path: string, cs: seq<Chunk>, source: string, now: int,
                            n: nat, id: string): Option<Row>
    requires n <= |cs|
  {
    match NumberIn(path, id)
    case Some(i) => if i < n then Some(ChunkRow(s, before, path, cs, source, now, i)) else Lookup(before.chunks, id)
    case None => Lookup(before.chunks, id)
  }

  /** The row under `id` after reindexing: the file's chunks, nothing else of the file, everything of other files. */
  ghost function ReindexedRow(s: Settings, before: Tables, path: string, cs: seq<Chunk>, source: string, now: int,
                              id: string): Option<Row>
  {
    match NumberIn(path, id)
    case Some(i) => if i < |cs| then Some(ChunkRow(s, before, path, cs, source, now, i)) else None
    case None => Lookup(before.chunks, id)
  }

  ghost predicate Rewritten(before: Tables, after: Tables, id: string) {
    id in before.chunks && (id !in after.chunks || after.chunks[id].text != before.chunks[id].text)
  }

  /** An embedding is dropped exactly when its chunk goes or changes its text. Nothing drops one that has no chunk. */
  ghost function KeptVector(before: Tables, after: Tables, id: string): Option<Embedding> {
    if Rewritten(before, after, id) then None else Lookup(before.vec, id)
  }

  ghost predicate VectorsKept(before: Tables, after: Tables) {
    forall id {:trigger Lookup(after.vec, id)} :: Lookup(after.vec, id) == KeptVector(before, after, id)
  }

  ghost predicate Entered(s: Settings, before: Tables, after: Tables, path: string, cs: seq<Chunk>, source: string,
                          now: int, n: nat)
    requires n <= |cs|
  {
    && after.nextRowid == before.nextRowid + NewCount(before.chunks, path, n)
    && (forall id {:trigger Lookup(after.chunks, id)} ::
          Lookup(after.chunks, id) == EnteredRow(s, before, path, cs, source, now, n, id))
    && VectorsKept(before, after)
  }

  /** The complete effect of reindexing a file into the chunk list `cs`. */
  ghost predicate Reindexed(s: Settings, before: Tables, after: Tables, path: string, cs: seq<Chunk>, source: string,
                            now: int)
  {
    && after.nextRowid == before.nextRowid + NewCount(before.chunks, path, |cs|)
    && (forall id {:trigger Lookup(after.chunks, id)} ::
          Lookup(after.chunks, id) == ReindexedRow(s, before, path, cs, source, now, id))
    && VectorsKept(before, after)
  }

  /** A row belongs to a path exactly when its id does. */
  lemma PathOfId(s: Settings, t: Tables, path: string, id: string)
    requires Agree(s, t) && id in t.chunks
    ensures t.chunks[id].path == path <==> NumberIn(path, id).Some?
  {
    assert RowOk(s, t, id);
    if NumberIn(path, id).Some? {
      var i: nat :| id == ChunkId(path, i);
      NumberInOtherPath(path, i, t.chunks[id].path);
    }
  }

  /** The tables after entering chunk number `n`. */
  ghost function EnterChunk(s: Settings, t: Tables, path: string, n: nat, c: Chunk, source: string, now: int): Tables {
    var id := ChunkId(path, n);
    if id !in t.chunks then InsertRow(s, t, id, path, c, source, now)
    else if t.chunks[id].hash == s.hash(c.text) then t
    else UpdateRow(s, t, id, c, now)
  }

  lemma EnterAgrees(s: Settings, t: Tables, path: string, n: nat, c: Chunk, source: string, now: int)
    requires Agree(s, t)
    ensures Agree(s, EnterChunk(s, t, path, n, c, source, now))
  {
    var id := ChunkId(path, n);
    if id !in t.chunks {
      InsertAgrees(s, t, path, n, c, source, now);
    } else if t.chunks[id].hash != s.hash(c.text) {
      assert RowOk(s, t, id);
      UpdateAgrees(s, t, id, c, now);
    }
  }

  lemma EnterStep(s: Settings, before: Tables, t: Tables, path: string, cs: seq<Chunk>, source: string, now: int,
                  n: nat)
    requires Agree(s, before) && Agree(s, t) && n < |cs| && Entered(s, before, t, path, cs, source, now, n)
    ensures Entered(s, before, EnterChunk(s, t, path, n, cs[n], source, now), path, cs, source, now, n + 1)
  {
    var id0, t' := ChunkId(path, n), EnterChunk(s, t, path, n, cs[n], source, now);
    NumberOfId(path, n);
    assert Lookup(t.chunks, id0) == Lookup(before.chunks, id0);
    forall id ensures Lookup(t'.chunks, id) == EnteredRow(s, before, path, cs, source, now, n + 1, id) {
      assert Lookup(t.chunks, id) == EnteredRow(s, before, path, cs, source, now, n, id);
    }
    forall id ensures Lookup(t'.vec, id) == KeptVector(before, t', id) {
      EnterStepVector(s, before, t, path, n, cs[n], source, now, id);
    }
  }

  lemma EnterStepVector(s: Settings, before: Tables, t: Tables, path: string, n: nat, c: Chunk, source: string,
                        now: int, id: string)
    requires Agree(s, before) && Agree(s, t) && VectorsKept(before, t)
    requires Lookup(t.chunks, ChunkId(path, n)) == Lookup(before.chunks, ChunkId(path, n))
    ensures var t' := EnterChunk(s, t, path, n, c, source, now); Lookup(t'.vec, id) == KeptVector(before, t', id)
  {
    assert Lookup(t.vec, id) == KeptVector(before, t, id);
    assert RowOk(s, t, ChunkId(path, n));
  }

  /** Entering the chunk list and then dropping the path's other rows is reindexing. */
  lemma EnterThenDrop(s: Settings, before: Tables, mid: Tables, after: Tables, path: string, cs: seq<Chunk>,
                      source: string,
                      now: int, gone: set<string>, removed: nat)
    requires Agree(s, before) && Agree(s, mid) && Entered(s, before, mid, path, cs, source, now, |cs|)
    requires forall id :: id in gone <==> StaleId(before, path, |cs|, id)
    requires Without(mid, after, gone, removed)
    ensures Reindexed(s, before, after, path, cs, source, now)
  {
    forall id ensures Lookup(after.chunks, id) == ReindexedRow(s, before, path, cs, source, now, id) {
      assert Lookup(mid.chunks, id) == EnteredRow(s, before, path, cs, source, now, |cs|, id);
      assert Lookup(after.chunks, id) == Surviving(mid.chunks, gone, id);
      if id in before.chunks {
        PathOfId(s, before, path, id);
      }
    }
    forall id ensures Lookup(after.vec, id) == KeptVector(before, after, id) {
      assert Lookup(mid.vec, id) == KeptVector(before, mid, id);
      assert Lookup(mid.chunks, id) == EnteredRow(s, before, path, cs, source, now, |cs|, id);
      assert Lookup(after.chunks, id) == Surviving(mid.chunks, gone, id);
    }
  }

  /** A row of the path whose number the file no longer reaches. */
  ghost predicate StaleId(before: Tables, path: string, n: nat, id: string) {
    id in before.chunks && before.chunks[id].path == path && !NumberedBelow(path, n, id)
  }

  /** `seen` holds the ids of the first `n` chunks of the path. */
  ghost predicate Numbers(path: string, n: nat, seen: set<string>) {
    forall id {:trigger NumberedBelow(path, n, id)} :: id in seen <==> NumberedBelow(path, n, id)
  }

  lemma NumbersStep(path: string, n: nat, seen: set<string>)
    requires Numbers(path, n, seen)
    ensures Numbers(path, n + 1, seen + {ChunkId(path, n)})
  {
    NumberOfId(path, n);
    forall id ensures id in seen + {ChunkId(path, n)} <==> NumberedBelow(path, n + 1, id) {
      assert id in seen <==> NumberedBelow(path, n, id);
    }
  }

  ghost predicate NumberedBelow(path: string, n: nat, id: string) {
    NumberIn(path, id).Some? && NumberIn(path, id).value < n
  }

  lemma EnteredNothing(s: Settings, t: Tables, path: string, cs: seq<Chunk>, source: string, now: int)
    requires Agree(s, t)
    ensures Entered(s, t, t, path, cs, source, now, 0)
  {
  }

  // ---------------------------------------------------------------------
  // Consequences
  // ---------------------------------------------------------------------

  /** After reindexing, the rows of the file are exactly its chunk list, text for text. */
  lemma ReindexedText(s: Settings, before: Tables, after: Tables, path: string, cs: seq<Chunk>, source: string,
                      now: int, id: string)
    requires s.Collisionless() && Agree(s, before) && Agree(s, after)
               && Reindexed(s, before, after, path, cs, source, now)
    ensures id in after.chunks && after.chunks[id].path == path <==> exists i: nat :: i < |cs| && id == ChunkId(path, i)
    ensures forall i: nat :: i < |cs| && id == ChunkId(path, i) ==>
              id in after.chunks && after.chunks[id].text == cs[i].text
  {
    assert Lookup(after.chunks, id) == ReindexedRow(s, before, path, cs, source, now, id);
    if id in after.chunks {
      PathOfId(s, after, path, id);
    }
    forall i: nat | i < |cs| && id == ChunkId(path, i)
      ensures id in after.chunks && after.chunks[id].text == cs[i].text
    {
      NumberOfId(path, i);
      assert RowOk(s, before, id);
    }
  }

  /** A row made for a chunk: a new number, the chunk's text and lines, and the time of the reindexing. */
  ghost predicate NewRow(s: Settings, r: Row, path: string, c: Chunk, source: string, now: int) {
    && r.path == path && r.source == source
    && r.text == c.text && r.hash == s.hash(c.text)
    && r.startLine == c.startLine && r.endLine == c.endLine
    && r.createdAt == now && r.updatedAt == now
    && r.accessCount == 0 && r.lastAccessed == None
  }

  /** A row taken over for a changed chunk: text, hash, lines and update time are new, all else is as before. */
  ghost predicate TakenOver(s: Settings, prior: Row, r: Row, c: Chunk, now: int) {
    && r.rowid == prior.rowid && r.path == prior.path && r.source == prior.source && r.createdAt == prior.createdAt
    && r.accessCount == prior.accessCount && r.lastAccessed == prior.lastAccessed
    && r.text == c.text && r.hash == s.hash(c.text)
    && r.startLine == c.startLine && r.endLine == c.endLine
    && r.updatedAt == now
  }

  /** Field by field, the row of chunk number `i` after reindexing; one whose text was there already stays as it was. */
  lemma ReindexedFields(s: Settings, before: Tables, after: Tables, path: string, cs: seq<Chunk>, source: string,
                        now: int, i: nat)
    requires s.Collisionless() && Agree(s, before) && Reindexed(s, before, after, path, cs, source, now) && i < |cs|
    ensures var id := ChunkId(path, i);
            && id in after.chunks
            && (id !in before.chunks ==>
                  && NewRow(s, after.chunks[id], path, cs[i], source, now)
                  && after.chunks[id].rowid >= before.nextRowid)
            && (id in before.chunks && before.chunks[id].text == cs[i].text ==> after.chunks[id] == before.chunks[id])
            && (id in before.chunks && before.chunks[id].text != cs[i].text ==>
                  TakenOver(s, before.chunks[id], after.chunks[id], cs[i], now))
  {
    var id := ChunkId(path, i);
    NumberOfId(path, i);
    assert RowOk(s, before, id);
    assert Lookup(after.chunks, id) == ReindexedRow(s, before, path, cs, source, now, id);
  }

  /**
    A row carries the line numbers of its chunk, except when the text was there already under other line numbers:
    a chunk that only moved keeps its old ones.
   */
  lemma LineNumbersExactly(s: Settings, before: Tables, after: Tables, path: string, cs: seq<Chunk>, source: string,
                           now: int, i: nat)
    requires s.Collisionless() && Agree(s, before) && Reindexed(s, before, after, path, cs, source, now) && i < |cs|
    ensures var id := ChunkId(path, i);
            && id in after.chunks
            && (after.chunks[id].startLine == cs[i].startLine && after.chunks[id].endLine == cs[i].endLine <==>
                  !(&& id in before.chunks
                    && before.chunks[id].text == cs[i].text
                    && (|| before.chunks[id].startLine != cs[i].startLine
                        || before.chunks[id].endLine != cs[i].endLine)))
  {
    ReindexedFields(s, before, after, path, cs, source, now, i);
  }

  /** What reindexing does to one embedding: dropping it mends it, and only a new chunk can put an orphan right. */
  lemma VectorAfter(s: Settings, before: Tables, after: Tables, id: string)
    requires VectorsKept(before, after)
    ensures VectorOk(s, after, id) <==>
              if id in before.chunks then Rewritten(before, after, id) || VectorOk(s, before, id)
              else id in before.vec ==> id in after.chunks && before.vec[id] == s.embed(after.chunks[id].text)
  {
    assert Lookup(after.vec, id) == KeptVector(before, after, id);
  }

  lemma SyncKept(s: Settings, before: Tables, after: Tables)
    requires VectorsKept(before, after) && InSync(s, before)
    ensures InSync(s, after)
  {
    forall id ensures VectorOk(s, after, id) {
      VectorAfter(s, before, after, id);
      assert VectorOk(s, before, id);
    }
  }

  /** Rows of other files are untouched. */
  lemma OtherPathsKept(s: Settings, before: Tables, after: Tables, path: string, cs: seq<Chunk>, source: string,
                       now: int,
                       other: string, i: nat)
    requires Reindexed(s, before, after, path, cs, source, now) && other != path
    ensures Lookup(after.chunks, ChunkId(other, i)) == Lookup(before.chunks, ChunkId(other, i))
  {
    var id := ChunkId(other, i);
    assert Lookup(after.chunks, id) == ReindexedRow(s, before, path, cs, source, now, id);
    if NumberIn(path, id).Some? {
      NumberInOtherPath(other, i, path);
    }
  }

  lemma {:induction false} NoneNew(chunks: map<string, Row>, path: string, n: nat)
    requires forall i: nat :: i < n ==> ChunkId(path, i) in chunks
    ensures NewCount(chunks, path, n) == 0
  {
    if n > 0 {
      NoneNew(chunks, path, n - 1);
    }
  }

  lemma {:induction false} NoneChanged(s: Settings, chunks: map<string, Row>, path: string, cs: seq<Chunk>, n: nat)
    requires n <= |cs|
    requires forall i: nat :: i < n ==>
               ChunkId(path, i) in chunks && chunks[ChunkId(path, i)].hash == s.hash(cs[i].text)
    ensures ChangedCount(s, chunks, path, cs, n) == 0
  {
    if n > 0 {
      NoneChanged(s, chunks, path, cs, n - 1);
    }
  }

  /** Reindexing an unchanged file changes nothing at all, whatever the clock and the source label. */
  lemma ReindexTwice(s: Settings, before: Tables, once: Tables, twice: Tables, path: string, cs: seq<Chunk>,
                     source: string, now: int, source': string, now': int)
    requires s.Collisionless() && Agree(s, before) && Agree(s, once) && Agree(s, twice)
    requires Reindexed(s, before, once, path, cs, source, now)
    requires Reindexed(s, once, twice, path, cs, source', now')
    ensures twice == once
    ensures NewCount(once.chunks, path, |cs|) == 0 && ChangedCount(s, once.chunks, path, cs, |cs|) == 0
  {
    forall i: nat | i < |cs|
      ensures ChunkId(path, i) in once.chunks && once.chunks[ChunkId(path, i)].hash == s.hash(cs[i].text)
    {
      ReindexedText(s, before, once, path, cs, source, now, ChunkId(path, i));
      assert RowOk(s, once, ChunkId(path, i));
    }
    NoneNew(once.chunks, path, |cs|);
    NoneChanged(s, once.chunks, path, cs, |cs|);
    forall id ensures Lookup(twice.chunks, id) == Lookup(once.chunks, id) {
      SameRow(s, before, once, twice, path, cs, source, now, source', now', id);
    }
    LookupDetermines(twice.chunks, once.chunks);
    forall id ensures Lookup(twice.vec, id) == Lookup(once.vec, id) {
      assert Lookup(twice.vec, id) == KeptVector(once, twice, id);
    }
    LookupDetermines(twice.vec, once.vec);
    forall e ensures twice.fts[e] == once.fts[e] {
      assert FtsOk(once, e) && FtsOk(twice, e);
    }
    assert twice.fts == once.fts;
  }

  lemma SameRow(s: Settings, before: Tables, once: Tables, twice: Tables, path: string, cs: seq<Chunk>,
                source: string, now: int, source': string, now': int, id: string)
    requires s.Collisionless() && Agree(s, before) && Agree(s, once)
    requires Reindexed(s, before, once, path, cs, source, now)
    requires Reindexed(s, once, twice, path, cs, source', now')
    ensures Lookup(twice.chunks, id) == Lookup(once.chunks, id)
  {
    assert Lookup(once.chunks, id) == ReindexedRow(s, before, path, cs, source, now, id);
    assert Lookup(twice.chunks, id) == ReindexedRow(s, once, path, cs, source', now', id);
    if NumberIn(path, id).Some? && NumberIn(path, id).value < |cs| {
      assert RowOk(s, before, id) && RowOk(s, once, id);
    }
  }

  lemma LookupDetermines<V>(a: map<string, V>, b: map<string, V>)
    requires forall id :: Lookup(a, id) == Lookup(b, id)
    ensures a == b
  {
    forall id ensures id in a <==> id in b {
      assert Lookup(a, id) == Lookup(b, id);
    }
    forall id | id in a ensures a[id] == b[id] {
      assert Lookup(a, id) == Lookup(b, id);
    }
  }

  // ---------------------------------------------------------------------
  // Embedding
  // ---------------------------------------------------------------------

  /** The tables once the texts collected under `ids` have been embedded and stored. */
  ghost function Embedded(s: Settings, t: Tables, missing: map<string, string>, ids: set<string>): Tables
    requires ids <= missing.Keys
  {
    if s.vecAvailable then t.(vec := t.vec + map id | id in ids :: s.embed(missing[id])) else t
  }

  /** The chunk is still there, and embedding the collected text is as good as embedding its current one. */
  ghost predicate Current(s: Settings, t: Tables, id: string, text: string) {
    id in t.chunks && s.embed(text) == s.embed(t.chunks[id].text)
  }

  lemma EmbeddedOne(s: Settings, t: Tables, missing: map<string, string>, ids: set<string>, id: string)
    requires s.vecAvailable && ids <= missing.Keys && id in missing
    ensures Embedded(s, t, missing, ids).vec[id := s.embed(missing[id])] == Embedded(s, t, missing, ids + {id}).vec
  {
  }

  lemma EmbeddedAgrees(s: Settings, t: Tables, missing: map<string, string>, ids: set<string>)
    requires Agree(s, t) && ids <= missing.Keys
    ensures Agree(s, Embedded(s, t, missing, ids))
  {
    var t' := Embedded(s, t, missing, ids);
    forall x ensures RowOk(s, t', x) {
      assert RowOk(s, t, x);
    }
    forall x, y ensures RowidsDiffer(t', x, y) {
      assert RowidsDiffer(t, x, y);
    }
    forall e ensures FtsOk(t', e) {
      assert FtsOk(t, e);
    }
  }

  lemma EmbeddedVector(s: Settings, t: Tables, missing: map<string, string>, ids: set<string>, id: string)
    requires s.vecAvailable && ids <= missing.Keys
    ensures VectorOk(s, Embedded(s, t, missing, ids), id) <==>
              if id in ids then Current(s, t, id, missing[id]) else VectorOk(s, t, id)
  {
  }

  /** Storing embeddings keeps them all in sync exactly when every collected text is still current. */
  lemma EmbeddedInSync(s: Settings, t: Tables, missing: map<string, string>, ids: set<string>)
    requires s.vecAvailable && ids <= missing.Keys && InSync(s, t)
    ensures InSync(s, Embedded(s, t, missing, ids)) <==> forall id :: id in ids ==> Current(s, t, id, missing[id])
  {
    var t' := Embedded(s, t, missing, ids);
    if InSync(s, t') {
      forall id | id in ids ensures Current(s, t, id, missing[id]) {
        assert VectorOk(s, t', id);
        EmbeddedVector(s, t, missing, ids, id);
      }
    } else {
      var id :| !VectorOk(s, t', id);
      assert VectorOk(s, t, id);
      EmbeddedVector(s, t, missing, ids, id);
    }
  }

  // ---------------------------------------------------------------------
  // The index object
  // ---------------------------------------------------------------------

  class MemoryIndex {
    var chunks: map<string, Row>
    var fts: multiset<(nat, string)>
    var vec: map<string, Embedding>
    var nextRowid: nat
    const settings: Settings

    function View(): Tables
      reads this
    {
      Tables(chunks, fts, vec, nextRowid)
    }

    ghost predicate Valid()
      reads this
    {
      settings.Collisionless() && Agree(settings, View())
    }

    /** No embedding is stale or orphaned. */
    ghost predicate Synced()
      reads this
    {
      InSync(settings, View())
    }

    /** A new database. */
    constructor (s: Settings)
      requires s.Collisionless()
      ensures Valid() && Synced() && settings == s && chunks == map[] && vec == map[]
    {
      settings := s;
      chunks, fts, vec, nextRowid := map[], multiset{}, map[], 1;
      new;
      assert forall e {:trigger FtsOk(View(), e)} :: FtsOk(View(), e);
    }

    /** The rows of one path, keyed by chunk id. */
    function ChunksForPath(path: string): (existing: map<string, Row>)
      reads this
      ensures forall id :: id in existing <==> id in chunks && chunks[id].path == path
      ensures forall id :: id in existing ==> id in chunks && existing[id] == chunks[id]
    {
      map id | id in chunks && chunks[id].path == path :: chunks[id]
    }

    /** Rewrites the row; the full-text table needs the old text to forget it. */
    method Update(id: string, record: Row, chunk: Chunk, now: int)
      requires id in chunks && record == chunks[id]
      modifies this
      ensures View() == UpdateRow(settings, old(View()), id, chunk, now)
    {
      chunks := chunks[id := Changed(settings, chunks[id], chunk, now)];
      fts := fts - multiset{(record.rowid, record.text)};
      var newRowid := chunks[id].rowid;
      fts := fts + multiset{(newRowid, chunk.text)};
      vec := DropVector(settings, vec, id);
    }

    method Insert(id: string, path: string, chunk: Chunk, source: string, now: int)
      modifies this
      ensures View() == InsertRow(settings, old(View()), id, path, chunk, source, now)
    {
      var rowid := nextRowid;
      chunks := chunks[id := Fresh(settings, rowid, path, chunk, source, now)];
      nextRowid := nextRowid + 1;
      fts := fts + multiset{(rowid, chunk.text)};
    }

    method Delete(id: string, record: Row)
      requires id in chunks && record == chunks[id]
      modifies this
      ensures View() == DeleteRow(settings, old(View()), id)
    {
      fts := fts - multiset{(record.rowid, record.text)};
      vec := DropVector(settings, vec, id);
      chunks := chunks - {id};
    }

    /**
      Brings the rows of a file in line with its content; an unreadable file is left alone. What the chunk list
      says of the content is `Chunkers.ChunksOfContent`.
     */
    method ReindexFile(path: string, content: Option<string>, c: Chunkers.Config, source: string, now: int)
      returns (result: ReindexResult)
      requires Valid()
      modifies this
      ensures Valid() && (old(Synced()) ==> Synced())
      ensures content.None? ==> View() == old(View()) && result == ReindexResult(0, 0, 0)
      ensures content.Some? ==>
                var cs := Chunkers.ChunksOf(content.value, c);
                && Reindexed(settings, old(View()), View(), path, cs, source, now)
                && result.added == NewCount(old(chunks), path, |cs|)
                && result.updated == ChangedCount(settings, old(chunks), path, cs, |cs|)
      ensures |chunks| + result.removed == |old(chunks)| + result.added
      ensures result == ReindexResult(0, 0, 0) ==> View() == old(View())
    {
      if content.None? {
        return ReindexResult(0, 0, 0);
      }
      var newChunks := Chunkers.ChunkMarkdown(content.value, c);
      result := ReindexChunks(path, newChunks, source, now);
    }

    /** Reindexing the same content again reports nothing and changes nothing, whatever the clock and the label. */
    method ReindexFileTwice(path: string, content: string, c: Chunkers.Config, source: string, now: int,
                            source': string, now': int)
      returns (ghost once: Tables, again: ReindexResult)
      requires Valid()
      modifies this
      ensures Valid() && Reindexed(settings, old(View()), once, path, Chunkers.ChunksOf(content, c), source, now)
      ensures View() == once && again == ReindexResult(0, 0, 0)
    {
      ghost var before, cs := View(), Chunkers.ChunksOf(content, c);
      var first := ReindexFile(path, Some(content), c, source, now);
      once := View();
      again := ReindexFile(path, Some(content), c, source', now');
      ReindexTwice(settings, before, once, View(), path, cs, source, now, source', now');
    }

    /** Makes the chunk list the rows of the path. */
    method ReindexChunks(path: string, cs: seq<Chunk>, source: string, now: int) returns (result: ReindexResult)
      requires Valid()
      modifies this
      ensures Valid() && (old(Synced()) ==> Synced())
      ensures Reindexed(settings, old(View()), View(), path, cs, source, now)
      ensures result.added == NewCount(old(chunks), path, |cs|)
      ensures result.updated == ChangedCount(settings, old(chunks), path, cs, |cs|)
      ensures |chunks| + result.removed == |old(chunks)| + result.added
      ensures result == ReindexResult(0, 0, 0) ==> View() == old(View())
    {
      ghost var before := View();
      var existing := ChunksForPath(path);
      var added, updated, seen := EnterChunks(path, cs, existing, source, now);
      ghost var mid := View();
      forall id | id in existing && id !in seen ensures id in chunks && chunks[id] == existing[id] {
        assert !NumberedBelow(path, |cs|, id);
        assert Lookup(mid.chunks, id) == EnteredRow(settings, before, path, cs, source, now, |cs|, id);
      }
      var removed := DropStale(existing, seen);
      assert forall id :: id in existing.Keys - seen <==> StaleId(before, path, |cs|, id);
      result := ReindexResult(added, updated, removed);
      EnterThenDrop(settings, before, mid, View(), path, cs, source, now, existing.Keys - seen, removed);
      if InSync(settings, before) {
        SyncKept(settings, before, View());
      }
    }

    /** Inserts the new chunks and rewrites the changed ones. */
    method EnterChunks(path: string, cs: seq<Chunk>, existing: map<string, Row>, source: string, now: int)
      returns (added: nat, updated: nat, seen: set<string>)
      requires Valid() && existing == ChunksForPath(path)
      modifies this
      ensures Valid() && Entered(settings, old(View()), View(), path, cs, source, now, |cs|)
      ensures Numbers(path, |cs|, seen)
      ensures |chunks| == |old(chunks)| + added && added == NewCount(old(chunks), path, |cs|)
      ensures updated == ChangedCount(settings, old(chunks), path, cs, |cs|)
      ensures added == 0 && updated == 0 ==> View() == old(View())
    {
      ghost var before := View();
      added, updated, seen := 0, 0, {};
      EnteredNothing(settings, before, path, cs, source, now);
      for i := 0 to |cs|
        invariant Valid() && Entered(settings, before, View(), path, cs, source, now, i)
        invariant Numbers(path, i, seen)
        invariant |chunks| == |before.chunks| + added && added == NewCount(before.chunks, path, i)
        invariant updated == ChangedCount(settings, before.chunks, path, cs, i)
        invariant added == 0 && updated == 0 ==> View() == before
      {
        var id := ChunkId(path, i);
        NumbersStep(path, i, seen);
        seen := seen + {id};
        ghost var was := View();
        var isNew, isChanged := EnterNext(path, cs, i, existing, source, now, before);
        assert !isNew && !isChanged ==> View() == was;
        added := added + if isNew then 1 else 0;
        updated := updated + if isChanged then 1 else 0;
      }
    }

    /** Chunk `i` of the file, compared with the row that was loaded for it at the start. */
    method EnterNext(path: string, cs: seq<Chunk>, i: nat, existing: map<string, Row>, source: string, now: int,
                     ghost before: Tables)
      returns (isNew: bool, isChanged: bool)
      requires Valid() && Agree(settings, before) && i < |cs|
      requires Entered(settings, before, View(), path, cs, source, now, i)
      requires existing == map id | id in before.chunks && before.chunks[id].path == path :: before.chunks[id]
      modifies this
      ensures Valid() && Entered(settings, before, View(), path, cs, source, now, i + 1)
      ensures |chunks| == |old(chunks)| + if isNew then 1 else 0
      ensures isNew <==> ChunkId(path, i) !in before.chunks
      ensures isChanged <==>
                ChunkId(path, i) in before.chunks && before.chunks[ChunkId(path, i)].hash != settings.hash(cs[i].text)
      ensures !isNew && !isChanged ==> View() == old(View())
    {
      EnterStep(settings, before, View(), path, cs, source, now, i);
      ExistingIsCurrent(settings, before, View(), path, cs, source, now, i);
      isNew, isChanged := EnterOne(path, i, cs[i], Lookup(existing, ChunkId(path, i)), source, now);
    }

    method EnterOne(path: string, i: nat, chunk: Chunk, record: Option<Row>, source: string, now: int)
      returns (isNew: bool, isChanged: bool)
      requires Valid() && record == Lookup(chunks, ChunkId(path, i))
      modifies this
      ensures Valid() && View() == EnterChunk(settings, old(View()), path, i, chunk, source, now)
      ensures |chunks| == |old(chunks)| + if isNew then 1 else 0
      ensures isNew <==> record.None?
      ensures isChanged <==> record.Some? && record.value.hash != settings.hash(chunk.text)
      ensures !isNew && !isChanged ==> View() == old(View())
    {
      var id := ChunkId(path, i);
      var hash := settings.hash(chunk.text);
      EnterAgrees(settings, View(), path, i, chunk, source, now);
      isNew, isChanged := false, false;
      match record
      case Some(row) =>
        if row.hash != hash {
          Update(id, row, chunk, now);
          isChanged := true;
        }
      case None =>
        Insert(id, path, chunk, source, now);
        isNew := true;
    }

    /** Removes the loaded rows that were not seen in the file, in any order. */
    method DropStale(existing: map<string, Row>, seen: set<string>) returns (removed: nat)
      requires Valid()
      requires forall id :: id in existing && id !in seen ==> id in chunks && chunks[id] == existing[id]
      modifies this
      ensures Valid() && Without(old(View()), View(), existing.Keys - seen, removed)
    {
      removed := 0;
      ghost var before := View();
      var rest := existing.Keys - seen;
      ghost var stale := rest;
      assert stale - rest == {};
      while rest != {}
        invariant Valid() && rest <= stale
        invariant Without(before, View(), stale - rest, removed)
        invariant forall id :: id in rest ==> id in chunks && chunks[id] == existing[id]
      {
        var id :| id in rest;
        assert stale - (rest - {id}) == (stale - rest) + {id};
        WithoutOne(settings, before, View(), stale - rest, removed, id);
        DropOne(id, existing[id]);
        rest := rest - {id};
        removed := removed + 1;
      }
      assert stale - rest == existing.Keys - seen;
    }

    method DropOne(id: string, record: Row)
      requires Valid() && id in chunks && record == chunks[id]
      modifies this
      ensures Valid() && View() == DeleteRow(settings, old(View()), id)
    {
      DeleteAgrees(settings, View(), id);
      Delete(id, record);
    }

    /** Removes every row of a deleted file and reports how many there were. */
    method DeletePath(path: string) returns (count: nat)
      requires Valid()
      modifies this
      ensures Valid() && (old(Synced()) ==> Synced())
      ensures Reindexed(settings, old(View()), View(), path, [], "", 0)
      ensures forall id :: id in chunks ==> chunks[id].path != path
      ensures |chunks| + count == |old(chunks)|
      ensures count == 0 ==> View() == old(View())
    {
      var existing := ChunksForPath(path);
      ghost var before := View();
      count := DropStale(existing, {});
      forall id | id in chunks ensures chunks[id].path != path {
        assert Lookup(View().chunks, id) == Surviving(before.chunks, existing.Keys - {}, id);
      }
      EnteredNothing(settings, before, path, [], "", 0);
      EnterThenDrop(settings, before, before, View(), path, [], "", 0, existing.Keys - {}, count);
      if InSync(settings, before) {
        SyncKept(settings, before, View());
      }
    }

    /** Ids and texts of the chunks that still lack an embedding. */
    method ChunksWithoutEmbeddings() returns (missing: map<string, string>)
      ensures settings.vecAvailable ==> forall id :: id in missing <==> id in chunks && id !in vec
      ensures !settings.vecAvailable ==> missing == map[]
      ensures forall id :: id in missing ==> id in chunks && missing[id] == chunks[id].text
    {
      if !settings.vecAvailable {
        return map[];
      }
      missing := map id | id in chunks && id !in vec :: chunks[id].text;
    }

    /**
      Stores an embedding without looking at the chunks table: embeddings in sync stay so exactly when the
      chunk exists and this one was made from its current text.
     */
    method UpsertEmbedding(id: string, embedding: Embedding)
      modifies this`vec
      ensures vec == if settings.vecAvailable then old(vec)[id := embedding] else old(vec)
      ensures settings.vecAvailable && old(Synced()) ==>
                (Synced() <==> id in chunks && embedding == settings.embed(chunks[id].text))
    {
      if !settings.vecAvailable {
        return;
      }
      ghost var before := View();
      vec := vec[id := embedding];
      forall x | x != id ensures VectorOk(settings, View(), x) <==> VectorOk(settings, before, x) {
      }
      assert VectorOk(settings, View(), id) <==> id in chunks && embedding == settings.embed(chunks[id].text);
    }

    /**
      Embeds what was missing when it was collected; chunks whose batch failed are skipped. Embeddings that were
      in sync stay so exactly when every text embedded now is still current.
     */
    method EmbedMissing(missing: map<string, string>, failed: set<string>)
      requires Valid()
      modifies this`vec
      ensures Valid() && View() == Embedded(settings, old(View()), missing, missing.Keys - failed)
      ensures settings.vecAvailable && old(Synced()) ==>
                (Synced() <==> forall id :: id in missing.Keys - failed ==> Current(settings, View(), id, missing[id]))
      ensures !settings.vecAvailable ==> View() == old(View())
    {
      ghost var before := View();
      var rest := missing.Keys - failed;
      ghost var done: set<string> := {};
      while rest != {}
        invariant rest + done == missing.Keys - failed && rest !! done
        invariant View() == Embedded(settings, before, missing, done)
      {
        var id :| id in rest;
        if settings.vecAvailable {
          EmbeddedOne(settings, before, missing, done, id);
        }
        UpsertEmbedding(id, settings.embed(missing[id]));
        rest, done := rest - {id}, done + {id};
      }
      assert done == missing.Keys - failed;
      EmbeddedAgrees(settings, before, missing, done);
      if settings.vecAvailable && InSync(settings, before) {
        EmbeddedInSync(settings, before, missing, done);
      }
    }

    /**
      With nothing in between, the embedding phase leaves every chunk embedded from its current text, save failures.
     */
    method EmbedUndisturbed(failed: set<string>)
      requires Valid() && Synced()
      modifies this`vec
      ensures Valid() && Synced()
      ensures settings.vecAvailable ==> forall id :: id in chunks && id !in failed ==>
                id in vec && vec[id] == settings.embed(chunks[id].text)
    {
      ghost var before := View();
      var missing := ChunksWithoutEmbeddings();
      EmbedMissing(missing, failed);
      forall id | settings.vecAvailable && id in chunks && id !in failed
        ensures id in vec && vec[id] == settings.embed(chunks[id].text)
      {
        assert VectorOk(settings, before, id);
      }
    }

    method RecordAccess(id: string, now: int)
      requires Valid()
      modifies this`chunks
      ensures Valid() && (old(Synced()) ==> Synced())
      ensures chunks == if id in old(chunks)
                        then old(chunks)[id := old(chunks)[id].(
                               accessCount := old(chunks)[id].accessCount + 1, lastAccessed := Some(now))]
                        else old(chunks)
    {
      if id in chunks {
        ghost var before := View();
        var row := chunks[id].(accessCount := chunks[id].accessCount + 1, lastAccessed := Some(now));
        EntriesUpdate(settings, View(), id, row);
        assert Entry(chunks[id]) in Entries(chunks);
        chunks := chunks[id := row];
        assert Entries(chunks) == Entries(before.chunks);
        forall e ensures FtsOk(View(), e) {
          assert FtsOk(before, e);
        }
        forall x ensures RowOk(settings, View(), x)
          && (VectorOk(settings, before, x) ==> VectorOk(settings, View(), x)) {
          assert RowOk(settings, before, x);
        }
        forall x, y ensures RowidsDiffer(View(), x, y) {
          assert RowidsDiffer(before, x, y);
        }
      }
    }
  }

  lemma OneRow(s: Settings, before: Tables, after: Tables, path: string, text: string, now: int)
    requires before.chunks == map[]
    requires Reindexed(s, before, after, path, [Chunkers.Chunk(text, 0, 1)], "session", now)
    ensures var id := ChunkId(path, 0); after.chunks.Keys == {id} && after.chunks[id].text == text
    ensures after.vec == before.vec
  {
    var id0 := ChunkId(path, 0);
    NumberOfId(path, 0);
    forall id ensures (id in after.chunks <==> id == id0) && Lookup(after.vec, id) == Lookup(before.vec, id) {
      assert Lookup(after.chunks, id)
          == ReindexedRow(s, before, path, [Chunkers.Chunk(text, 0, 1)], "session", now, id);
      assert Lookup(after.vec, id) == KeptVector(before, after, id);
    }
    LookupDetermines(after.vec, before.vec);
    assert Lookup(after.chunks, id0).Some?;
  }

  lemma NoRow(s: Settings, before: Tables, after: Tables, path: string)
    requires before.chunks.Keys == {ChunkId(path, 0)} && before.vec == map[]
    requires Reindexed(s, before, after, path, [], "", 0)
    ensures after.chunks == map[] && after.vec == map[]
  {
    NumberOfId(path, 0);
    forall id ensures id !in after.chunks && id !in after.vec {
      assert Lookup(after.chunks, id) == ReindexedRow(s, before, path, [], "", 0, id);
      assert Lookup(after.vec, id) == KeptVector(before, after, id);
    }
  }

  /**
    A file deleted while its chunk is being embedded leaves an embedding without a chunk. When the file comes back
    with another text the new row meets the old embedding, and no later phase will collect the chunk again.
   */
  method DeletedWhileEmbedding(s: Settings, path: string, a: string, b: string)
      returns (t: Tables, again: map<string, string>)
    requires s.Collisionless() && s.vecAvailable && s.embed(a) != s.embed(b)
    ensures Agree(s, t) && again == map[]
    ensures var id := ChunkId(path, 0);
            id in t.chunks && t.chunks[id].text == b && id in t.vec && t.vec[id] == s.embed(a)
  {
    var index := new MemoryIndex(s);
    var id := ChunkId(path, 0);
    ghost var empty := index.View();
    var first := index.ReindexChunks(path, [Chunkers.Chunk(a, 0, 1)], "session", 0);
    OneRow(s, empty, index.View(), path, a, 0);
    var missing := index.ChunksWithoutEmbeddings();
    assert missing == map[id := a];
    ghost var one := index.View();
    var removed := index.DeletePath(path);
    NoRow(s, one, index.View(), path);
    index.EmbedMissing(missing, {});
    ghost var orphaned := index.View();
    var back := index.ReindexChunks(path, [Chunkers.Chunk(b, 0, 1)], "session", 1);
    t := index.View();
    OneRow(s, orphaned, t, path, b, 1);
    again := index.ChunksWithoutEmbeddings();
  }

  ghost function Surviving<V>(m: map<string, V>, gone: set<string>, id: string): Option<V> {
    if id in gone then None else Lookup(m, id)
  }

  /** `t` is `before` without the `n` rows of `gone` and their embeddings. */
  ghost predicate Without(before: Tables, t: Tables, gone: set<string>, n: nat) {
    && (forall id {:trigger Lookup(t.chunks, id)} :: Lookup(t.chunks, id) == Surviving(before.chunks, gone, id))
    && (forall id {:trigger Lookup(t.vec, id)} :: Lookup(t.vec, id) == Surviving(before.vec, gone, id))
    && t.nextRowid == before.nextRowid
    && |t.chunks| + n == |before.chunks|
    && (n == 0 ==> t == before)
  }

  lemma WithoutOne(s: Settings, before: Tables, t: Tables, gone: set<string>, n: nat, id: string)
    requires Agree(s, t) && Without(before, t, gone, n) && id in t.chunks
    ensures Without(before, DeleteRow(s, t, id), gone + {id}, n + 1)
  {
    var t' := DeleteRow(s, t, id);
    forall x ensures Lookup(t'.chunks, x) == Surviving(before.chunks, gone + {id}, x) {
      assert Lookup(t.chunks, x) == Surviving(before.chunks, gone, x);
    }
    forall x ensures Lookup(t'.vec, x) == Surviving(before.vec, gone + {id}, x) {
      assert Lookup(t.vec, x) == Surviving(before.vec, gone, x);
    }
    MinusSize(t.chunks, id);
  }

  lemma MinusSize<V>(m: map<string, V>, id: string)
    requires id in m
    ensures |m - {id}| + 1 == |m|
  {
    assert (m - {id}).Keys == m.Keys - {id};
    assert |m - {id}| == |(m - {id}).Keys| && |m| == |m.Keys|;
  }

  /** While chunk `i` is being entered, what was loaded for it at the start is still its current row. */
  lemma ExistingIsCurrent(s: Settings, before: Tables, t: Tables, path: string, cs: seq<Chunk>, source: string,
                          now: int, i: nat)
    requires Agree(s, before) && i < |cs| && Entered(s, before, t, path, cs, source, now, i)
    ensures var id := ChunkId(path, i);
            Lookup(t.chunks, id) == Lookup(before.chunks, id)
              && (id in before.chunks ==> before.chunks[id].path == path)
  {
    var id := ChunkId(path, i);
    NumberOfId(path, i);
    assert Lookup(t.chunks, id) == EnteredRow(s, before, path, cs, source, now, i, id);
    if id in before.chunks {
      PathOfId(s, before, path, id);
    }
  }
}
