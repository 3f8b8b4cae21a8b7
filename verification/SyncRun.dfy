/** Sync-on-search and the tables together: what handling a path means for the rows of the index. */
module SyncRuns {
  import opened Prelude
  import opened ChunkIds
  import opened MemoryIndexes
  import opened ReindexProtocol
  import Chunkers

  /** What a handler read: the text, unless the file could not be read, its source label and the time. */
  datatype Reading = Reading(text: Option<string>, source: string, now: int)

  /** A file that is there is reindexed, one that is gone loses its rows, and an unreadable one is left alone. */
  ghost predicate Handled(s: Settings, c: Chunkers.Config, before: Tables, after: Tables, path: string, present: bool,
                          g: Reading)
  {
    && Agree(s, after)
    && if !present then Reindexed(s, before, after, path, [], "", 0)
       else if g.text.None? then after == before
       else Reindexed(s, before, after, path, Chunkers.ChunksOf(g.text.value, c), g.source, g.now)
  }

  method HandlePath(index: MemoryIndex, path: string, present: bool, g: Reading, c: Chunkers.Config)
    requires index.Valid()
    modifies index
    ensures index.Valid()
    ensures Handled(index.settings, c, old(index.View()), index.View(), path, present, g)
  {
    if present {
      var result := index.ReindexFile(path, g.text, c, g.source, g.now);
    } else {
      var count := index.DeletePath(path);
    }
  }

  /** A run of the protocol with the tables in every state and what the handler of each step read. */
  datatype Sync = Sync(run: Run, tables: seq<Tables>, readings: seq<Reading>)

  ghost predicate TableStep(s: Settings, c: Chunkers.Config, y: Sync, k: nat)
    requires k < |y.run.actions| == |y.readings| && |y.tables| == |y.run.actions| + 1
  {
    match y.run.actions[k]
    case Handle(_, path, present) => Handled(s, c, y.tables[k], y.tables[k + 1], path, present, y.readings[k])
    case _ => y.tables[k + 1] == y.tables[k]
  }

  ghost predicate LegalSync(s: Settings, c: Chunkers.Config, y: Sync, stale: nat) {
    && Legal(y.run, stale) && s.Collisionless()
    && |y.readings| == |y.run.actions| && |y.tables| == |y.run.actions| + 1
    && Agree(s, y.tables[0])
    && forall k: nat {:trigger TableStep(s, c, y, k)} :: k < |y.run.actions| ==> TableStep(s, c, y, k)
  }

  lemma {:induction false} AgreeAlways(s: Settings, c: Chunkers.Config, y: Sync, stale: nat, n: nat)
    requires LegalSync(s, c, y, stale) && n < |y.tables|
    ensures Agree(s, y.tables[n])
  {
    if n > 0 {
      AgreeAlways(s, c, y, stale, n - 1);
      assert TableStep(s, c, y, n - 1);
    }
  }

  // ---------------------------------------------------------------------
  // The rows of one path
  // ---------------------------------------------------------------------

  ghost predicate RowShows(t: Tables, path: string, cs: seq<Chunk>, id: string) {
    var n := NumberIn(path, id);
    && (id in t.chunks && t.chunks[id].path == path <==> n.Some? && n.value < |cs|)
    && (id in t.chunks && t.chunks[id].path == path && n.Some? && n.value < |cs| ==>
          t.chunks[id].text == cs[n.value].text)
  }

  /** The rows of the path are exactly this chunk list, text for text. */
  ghost predicate Shows(t: Tables, path: string, cs: seq<Chunk>) {
    forall id {:trigger RowShows(t, path, cs, id)} :: RowShows(t, path, cs, id)
  }

  lemma ReindexedShows(s: Settings, before: Tables, after: Tables, path: string, cs: seq<Chunk>, source: string,
                       now: int)
    requires s.Collisionless() && Agree(s, before) && Agree(s, after)
    requires Reindexed(s, before, after, path, cs, source, now)
    ensures Shows(after, path, cs)
  {
    forall id ensures RowShows(after, path, cs, id) {
      ReindexedText(s, before, after, path, cs, source, now, id);
      assert Lookup(after.chunks, id) == ReindexedRow(s, before, path, cs, source, now, id);
      if id in after.chunks {
        PathOfId(s, after, path, id);
      }
      if NumberIn(path, id).Some? {
        assert id == ChunkId(path, NumberIn(path, id).value);
      }
    }
  }

  lemma ReindexedElsewhere(s: Settings, before: Tables, after: Tables, other: string, ds: seq<Chunk>, source: string,
                           now: int, path: string, cs: seq<Chunk>)
    requires Agree(s, before) && Agree(s, after) && Reindexed(s, before, after, other, ds, source, now)
    requires other != path && Shows(before, path, cs)
    ensures Shows(after, path, cs)
  {
    forall id ensures RowShows(after, path, cs, id) {
      assert RowShows(before, path, cs, id) && RowOk(s, after, id);
      if i: nat :| id == ChunkId(path, i) {
        OtherPathsKept(s, before, after, other, ds, source, now, path, i);
        assert Lookup(after.chunks, id) == Lookup(before.chunks, id);
      }
    }
  }

  lemma HandledElsewhere(s: Settings, c: Chunkers.Config, before: Tables, after: Tables, other: string, present: bool,
                         g: Reading, path: string, cs: seq<Chunk>)
    requires Agree(s, before) && Handled(s, c, before, after, other, present, g)
    requires other != path && Shows(before, path, cs)
    ensures Shows(after, path, cs)
  {
    if !present {
      ReindexedElsewhere(s, before, after, other, [], "", 0, path, cs);
    } else if g.text.Some? {
      ReindexedElsewhere(s, before, after, other, Chunkers.ChunksOf(g.text.value, c), g.source, g.now, path, cs);
    }
  }

  // ---------------------------------------------------------------------
  // Runs
  // ---------------------------------------------------------------------

  ghost predicate Handles(a: Action, path: string) {
    a.Handle? && a.path == path
  }

  /** Step `h` is the last one before state `n` that handles the path. */
  ghost predicate LastHandled(y: Sync, h: nat, n: nat, path: string) {
    && h < n <= |y.run.actions| && Handles(y.run.actions[h], path)
    && forall m :: h < m < n ==> !Handles(y.run.actions[m], path)
  }

  /** Handling at step `h` settles the rows, unless the file is there and cannot be read; these are their chunks. */
  ghost function SettledChunks(c: Chunkers.Config, y: Sync, h: nat): Option<seq<Chunk>>
    requires h < |y.run.actions| && h < |y.readings|
  {
    if !y.run.actions[h].Handle? || !y.run.actions[h].present then Some([])
    else if y.readings[h].text.None? then None
    else Some(Chunkers.ChunksOf(y.readings[h].text.value, c))
  }

  /** What the last handling left is what the index shows, whatever happened to other paths meanwhile. */
  lemma {:induction false} ShowsLastReading(s: Settings, c: Chunkers.Config, y: Sync, stale: nat, h: nat, n: nat,
                                            path: string)
    requires LegalSync(s, c, y, stale) && LastHandled(y, h, n, path) && SettledChunks(c, y, h).Some?
    ensures Shows(y.tables[n], path, SettledChunks(c, y, h).value)
  {
    AgreeAlways(s, c, y, stale, n - 1);
    AgreeAlways(s, c, y, stale, n);
    assert TableStep(s, c, y, n - 1);
    var before, after, cs := y.tables[n - 1], y.tables[n], SettledChunks(c, y, h).value;
    if h == n - 1 {
      var g := y.readings[h];
      if y.run.actions[h].present {
        ReindexedShows(s, before, after, path, cs, g.source, g.now);
      } else {
        ReindexedShows(s, before, after, path, cs, "", 0);
      }
    } else {
      ShowsLastReading(s, c, y, stale, h, n - 1, path);
      match y.run.actions[n - 1]
      case Handle(_, other, present) =>
        HandledElsewhere(s, c, before, after, other, present, y.readings[n - 1], path, cs);
      case _ =>
    }
  }

  lemma {:induction false} LastHandledExists(y: Sync, h: nat, n: nat, path: string) returns (last: nat)
    requires h < n <= |y.run.actions| && Handles(y.run.actions[h], path)
    ensures h <= last && LastHandled(y, last, n, path)
  {
    if Handles(y.run.actions[n - 1], path) {
      last := n - 1;
    } else {
      last := LastHandledExists(y, h, n - 1, path);
    }
  }

  /**
    Once nothing waits and nothing is in work, the rows of a path that a living process reported are the chunks of a
    reading made after the report, or none if the file was gone by then, unless that last reading failed.
   */
  lemma QuietIndexIsFresh(s: Settings, c: Chunkers.Config, y: Sync, stale: nat, k: nat, n: nat, w: nat, path: string)
    requires LegalSync(s, c, y, stale) && k < n < |y.run.states| && y.run.actions[k] == Report(w, path)
    requires !Crashed(y.run, k, n, w)
    requires !Waiting(y.run.states[n], w, path) && forall i :: !InWork(y.run.states[n], i, w, path)
    ensures exists h: nat :: k < h < n && LastHandled(y, h, n, path)
              && (SettledChunks(c, y, h).Some? ==> Shows(y.tables[n], path, SettledChunks(c, y, h).value))
  {
    QuietMeansHandled(y.run, k, n, w, path, stale);
    var t: nat, i: nat, h0: nat :| k < t < h0 < n && TakenAt(y.run, t, w, path, i) && HandledAt(y.run, h0, i, path);
    assert Handles(y.run.actions[h0], path);
    var h := LastHandledExists(y, h0, n, path);
    if SettledChunks(c, y, h).Some? {
      ShowsLastReading(s, c, y, stale, h, n, path);
    }
  }
}
