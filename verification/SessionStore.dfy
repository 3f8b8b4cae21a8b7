/** Sessions as relational rows: a full-sync save and a load that orders the rows again. */
module SessionStores {
  import opened Prelude
  import opened MemorySessions

  /** A stored value with the session it belongs to and its branch (empty for checkpoints). */
  datatype Row<V> = Row(value: V, session: string, group: string)

  const MAIN := "main"

  function TurnId(t: Turn): string { t.id }
  function TurnKey(t: Turn): int { t.turnNumber }
  function CheckpointId(c: Checkpoint): string { c.id }
  function CheckpointKey(c: Checkpoint): int { c.timestamp }

  // ---------------------------------------------------------------------
  // Tables keyed by a primary key
  // ---------------------------------------------------------------------

  predicate Of<V>(r: Row<V>, sid: string, group: string) {
    r.session == sid && r.group == group
  }

  ghost predicate DistinctIds<V>(idOf: V -> string, items: seq<V>) {
    forall i, j :: 0 <= i < j < |items| ==> idOf(items[i]) != idOf(items[j])
  }

  /** The group's rows are exactly `items`, each under its own id. */
  ghost predicate Holds<V>(table: map<string, Row<V>>, idOf: V -> string, sid: string, group: string, items: seq<V>) {
    && (forall v :: v in items ==> idOf(v) in table && table[idOf(v)] == Row(v, sid, group))
    && (forall id :: id in table && Of(table[id], sid, group) ==>
         table[id].value in items && idOf(table[id].value) == id)
  }

  /** Every other row of the table is the same in both. */
  ghost predicate Elsewhere<V>(before: map<string, Row<V>>, after: map<string, Row<V>>, sid: string, group: string) {
    && (forall id :: id in before && !Of(before[id], sid, group) ==> id in after && after[id] == before[id])
    && (forall id :: id in after && !Of(after[id], sid, group) ==> id in before && before[id] == after[id])
  }

  /** No id is taken by a row outside the group. */
  ghost predicate NoClash<V>(table: map<string, Row<V>>, idOf: V -> string, sid: string, group: string, items: seq<V>) {
    forall v :: v in items && idOf(v) in table ==> Of(table[idOf(v)], sid, group)
  }

  ghost predicate Keyed<V>(table: map<string, Row<V>>, idOf: V -> string) {
    forall id :: id in table ==> idOf(table[id].value) == id
  }

  /** Deletes the group's rows and inserts the items one by one, stopping at the first primary-key conflict. */
  method ReplaceRows<V>(table: map<string, Row<V>>, idOf: V -> string, sid: string, group: string, items: seq<V>)
      returns (result: map<string, Row<V>>, ok: bool)
    ensures ok <==> DistinctIds(idOf, items) && NoClash(table, idOf, sid, group, items)
    ensures ok ==> Holds(result, idOf, sid, group, items)
    ensures Elsewhere(table, result, sid, group)
    ensures Keyed(table, idOf) ==> Keyed(result, idOf)
  {
    result, ok := map id | id in table && !Of(table[id], sid, group) :: table[id], true;
    for i := 0 to |items|
      invariant ok && DistinctIds(idOf, items[..i]) && NoClash(table, idOf, sid, group, items[..i])
      invariant Holds(result, idOf, sid, group, items[..i])
      invariant Elsewhere(table, result, sid, group)
      invariant Keyed(table, idOf) ==> Keyed(result, idOf)
    {
      var v := items[i];
      assert items[..i + 1] == items[..i] + [v];
      if idOf(v) in result {
        ok := false;
        Conflict(table, result, idOf, sid, group, items, i);
        return;
      }
      result := result[idOf(v) := Row(v, sid, group)];
    }
    assert items[..|items|] == items;
  }

  /** An id already present belongs to an earlier item or to a row outside the group. */
  lemma Conflict<V>(table: map<string, Row<V>>, result: map<string, Row<V>>, idOf: V -> string, sid: string,
                    group: string,
                    items: seq<V>, i: nat)
    requires i < |items| && idOf(items[i]) in result
    requires Holds(result, idOf, sid, group, items[..i]) && Elsewhere(table, result, sid, group)
    ensures !(DistinctIds(idOf, items) && NoClash(table, idOf, sid, group, items))
  {
    var id := idOf(items[i]);
    if Of(result[id], sid, group) {
      var j :| 0 <= j < i && items[..i][j] == result[id].value;
      assert idOf(items[j]) == idOf(items[i]);
    } else {
      assert items[i] in items;
    }
  }

  // ---------------------------------------------------------------------
  // Ordered selection
  // ---------------------------------------------------------------------

  ghost predicate OrderedBy<V>(key: V -> int, items: seq<V>) {
    forall i, j :: 0 <= i < j < |items| ==> key(items[i]) <= key(items[j])
  }

  ghost predicate StrictBy<V>(key: V -> int, items: seq<V>) {
    forall i, j :: 0 <= i < j < |items| ==> key(items[i]) < key(items[j])
  }

  lemma LastDetermined<V>(key: V -> int, a: seq<V>, b: seq<V>)
    requires StrictBy(key, a) && OrderedBy(key, b) && a != [] && b != []
    requires forall v :: v in a <==> v in b
    ensures a[|a| - 1] == b[|b| - 1]
  {
    var x, y := a[|a| - 1], b[|b| - 1];
    assert x in b && y in a;
    var i :| 0 <= i < |b| && b[i] == x;
    var j :| 0 <= j < |a| && a[j] == y;
    assert key(x) <= key(y) <= key(x);
  }

  /** Two listings of the same values agree when the order is strict on one and weak on the other. */
  lemma {:induction false} OrderDetermined<V>(key: V -> int, a: seq<V>, b: seq<V>)
    requires StrictBy(key, a) && OrderedBy(key, b) && NoDuplicates(b)
    requires forall v :: v in a <==> v in b
    ensures a == b
  {
    assert a != [] ==> a[0] in b;
    assert b != [] ==> b[0] in a;
    if a != [] {
      LastDetermined(key, a, b);
      var a', b', x := a[..|a| - 1], b[..|b| - 1], a[|a| - 1];
      assert a == a' + [x] && b == b' + [x];
      forall v ensures v in a' <==> v in b' {
        assert v in a <==> v in a' || v == x;
        assert v in b <==> v in b' || v == x;
        assert x !in a' && x !in b';
      }
      OrderDetermined(key, a', b');
    }
  }

  function InsertBy<V(!new)>(key: V -> int, items: seq<V>, v: V): (r: seq<V>)
    ensures |r| == |items| + 1
    ensures forall w :: w in r <==> w == v || w in items
  {
    if items == [] || key(v) <= key(items[0]) then [v] + items
    else
      var rest := InsertBy(key, items[1..], v);
      assert forall w :: w in items <==> w == items[0] || w in items[1..];
      [items[0]] + rest
  }

  lemma PrependOrdered<V>(key: V -> int, x: V, items: seq<V>)
    requires OrderedBy(key, items) && NoDuplicates(items)
    requires forall w :: w in items ==> key(x) <= key(w) && w != x
    ensures OrderedBy(key, [x] + items) && NoDuplicates([x] + items)
  {
    assert forall i :: 0 <= i < |items| ==> items[i] in items;
  }

  lemma {:induction false} InsertByOrdered<V(!new)>(key: V -> int, items: seq<V>, v: V)
    requires OrderedBy(key, items) && NoDuplicates(items) && v !in items
    ensures OrderedBy(key, InsertBy(key, items, v)) && NoDuplicates(InsertBy(key, items, v))
  {
    assert forall w :: w in items ==> key(items[0]) <= key(w);
    if items == [] || key(v) <= key(items[0]) {
      PrependOrdered(key, v, items);
    } else {
      var rest := InsertBy(key, items[1..], v);
      InsertByOrdered(key, items[1..], v);
      forall w | w in rest ensures key(items[0]) <= key(w) && w != items[0] {
        if w != v {
          var i :| 0 <= i < |items[1..]| && items[1..][i] == w;
          assert items[i + 1] == w;
        }
      }
      PrependOrdered(key, items[0], rest);
    }
  }

  /** The group's values in key order; ties may come out in any order. */
  method SelectRows<V(!new)>(table: map<string, Row<V>>, sid: string, group: string, key: V -> int,
                             ghost idOf: V -> string)
      returns (items: seq<V>)
    requires Keyed(table, idOf)
    ensures Holds(table, idOf, sid, group, items)
    ensures OrderedBy(key, items) && NoDuplicates(items)
  {
    items := [];
    var ids := set id | id in table && Of(table[id], sid, group);
    var rest := ids;
    while rest != {}
      invariant rest <= ids
      invariant OrderedBy(key, items) && NoDuplicates(items)
      invariant forall v :: v in items ==> idOf(v) in ids - rest && table[idOf(v)].value == v
      invariant forall id :: id in ids - rest ==> table[id].value in items
    {
      var id :| id in rest;
      InsertByOrdered(key, items, table[id].value);
      items := InsertBy(key, items, table[id].value);
      rest := rest - {id};
    }
  }

  // ---------------------------------------------------------------------
  // What a saved session looks like
  // ---------------------------------------------------------------------

  /** The turns saved last under a branch name: a branch that is itself called "main" replaces the main turns. */
  ghost function Kept(s: Session, name: string): seq<Turn> {
    if name in s.branches then s.branches[name] else s.turns
  }

  ghost predicate Named(s: Session, name: string) {
    name == MAIN || name in s.branches
  }

  ghost function HomeName(p: Place): string {
    match p
    case Main => MAIN
    case Branch(name) => name
  }

  /** Ids are unique across sessions, and this session's rows sit where its turns were created. */
  ghost predicate Compatible(turnRows: map<string, Row<Turn>>, checkpointRows: map<string, Row<Checkpoint>>,
                             sid: string, s: Session, h: History) {
    && (forall id :: id in turnRows && turnRows[id].session == sid ==>
          id in h.home && HomeName(h.home[id]) == turnRows[id].group && Named(s, turnRows[id].group))
    && (forall id :: id in turnRows && turnRows[id].session != sid ==> id !in h.home)
    && (forall c :: c in s.checkpoints && c.id in checkpointRows ==> Of(checkpointRows[c.id], sid, ""))
  }

  /** Growing a session with ids unknown to the store keeps it ready to be saved. */
  lemma CompatibleGrows(turnRows: map<string, Row<Turn>>, checkpointRows: map<string, Row<Checkpoint>>,
                        sid: string, s: Session, h: History, s': Session, h': History)
    requires Compatible(turnRows, checkpointRows, sid, s, h) && Grows(s, h, s', h')
    requires forall id :: id in h'.home && id !in h.home ==> id !in turnRows
    requires forall c :: c in s'.checkpoints && c !in s.checkpoints ==> c.id !in checkpointRows
    ensures Compatible(turnRows, checkpointRows, sid, s', h')
  {
  }

  /** A store without turns of the session is ready for it exactly when nothing of it has an id that is taken. */
  lemma ReadyAtFirst(turnRows: map<string, Row<Turn>>, checkpointRows: map<string, Row<Checkpoint>>,
                     sid: string, s: Session, h: History)
    requires forall id :: id in turnRows ==> turnRows[id].session != sid
    ensures Compatible(turnRows, checkpointRows, sid, s, h) <==>
              && (forall id :: id in h.home ==> id !in turnRows)
              && (forall c :: c in s.checkpoints && c.id in checkpointRows ==> Of(checkpointRows[c.id], sid, ""))
  {
  }

  /** The store holds this session: one group of rows per name and nothing else of it. */
  ghost predicate Stored(sessions: map<string, nat>, turnRows: map<string, Row<Turn>>,
                         checkpointRows: map<string, Row<Checkpoint>>, sid: string, s: Session) {
    && sid in sessions && sessions[sid] == s.nextTurnNumber
    && (forall name :: Named(s, name) ==> Holds(turnRows, TurnId, sid, name, Kept(s, name)))
    && (forall id :: id in turnRows && turnRows[id].session == sid ==> Named(s, turnRows[id].group))
    && Holds(checkpointRows, CheckpointId, sid, "", s.checkpoints)
  }

  /** Every checkpoint was taken later than the one before it. */
  ghost predicate TakenLater(checkpoints: seq<Checkpoint>) {
    forall i, j :: 0 <= i < j < |checkpoints| ==> checkpoints[i].timestamp < checkpoints[j].timestamp
  }

  ghost predicate InTimeOrder(checkpoints: seq<Checkpoint>) {
    forall i, j :: 0 <= i < j < |checkpoints| ==> checkpoints[i].timestamp <= checkpoints[j].timestamp
  }

  lemma TimeIsKey(checkpoints: seq<Checkpoint>)
    ensures StrictBy(CheckpointKey, checkpoints) <==> TakenLater(checkpoints)
    ensures OrderedBy(CheckpointKey, checkpoints) <==> InTimeOrder(checkpoints)
  {
    forall i, j | 0 <= i < j < |checkpoints|
      ensures CheckpointKey(checkpoints[i]) == checkpoints[i].timestamp
      ensures CheckpointKey(checkpoints[j]) == checkpoints[j].timestamp
    {
    }
  }

  /** What loading may return: every group in key order, the branches being the names other than "main". */
  ghost predicate Loaded(sessions: map<string, nat>, turnRows: map<string, Row<Turn>>,
                         checkpointRows: map<string, Row<Checkpoint>>, sid: string, v: Session) {
    && sid in sessions && v.nextTurnNumber == sessions[sid]
    && LoadedTurns(turnRows, sid, MAIN, v.turns)
    && LoadedBranches(turnRows, sid, v.branches, {})
    && Holds(checkpointRows, CheckpointId, sid, "", v.checkpoints)
    && InTimeOrder(v.checkpoints) && NoDuplicates(v.checkpoints)
  }

  ghost predicate HasRow(turnRows: map<string, Row<Turn>>, sid: string, group: string) {
    exists id :: id in turnRows && Of(turnRows[id], sid, group)
  }

  /** One branch per name that has rows, apart from "main" and the names still to be read. */
  ghost predicate LoadedBranches(turnRows: map<string, Row<Turn>>, sid: string, branches: map<string, seq<Turn>>,
                                 rest: set<string>) {
    && (forall b :: b in branches ==>
         b != MAIN && HasRow(turnRows, sid, b) && LoadedTurns(turnRows, sid, b, branches[b]))
    && (forall id :: id in turnRows && turnRows[id].session == sid && turnRows[id].group != MAIN ==>
          turnRows[id].group in branches || turnRows[id].group in rest)
  }

  ghost predicate LoadedTurns(turnRows: map<string, Row<Turn>>, sid: string, group: string, turns: seq<Turn>) {
    Holds(turnRows, TurnId, sid, group, turns) && OrderedBy(TurnKey, turns) && NoDuplicates(turns)
  }

  lemma LoadedGroup(turnRows: map<string, Row<Turn>>, sid: string, group: string, saved: seq<Turn>, loaded: seq<Turn>)
    requires Holds(turnRows, TurnId, sid, group, saved) && Increasing(saved)
    requires LoadedTurns(turnRows, sid, group, loaded)
    ensures loaded == saved
  {
    assert StrictBy(TurnKey, saved);
    OrderDetermined(TurnKey, saved, loaded);
  }

  /**
    With checkpoints taken at increasing times a saved session comes back exactly
    if and only if it has no branch called "main".
   */
  lemma RoundTrip(sessions: map<string, nat>, turnRows: map<string, Row<Turn>>,
                  checkpointRows: map<string, Row<Checkpoint>>,
                  sid: string, s: Session, h: History, v: Session)
    requires SessionOk(s, h)
    requires Stored(sessions, turnRows, checkpointRows, sid, s) && Loaded(sessions, turnRows, checkpointRows, sid, v)
    ensures TakenLater(s.checkpoints) ==> (v == s <==> MAIN !in s.branches)
    ensures v == s ==> InTimeOrder(s.checkpoints)
    ensures v.turns == Kept(s, MAIN) && v.branches == s.branches - {MAIN} && v.nextTurnNumber == s.nextTurnNumber
  {
    GroupLoads(sessions, turnRows, checkpointRows, sid, s, h, MAIN, v.turns);
    BranchesLoad(sessions, turnRows, checkpointRows, sid, s, h, v.branches);
    TimeIsKey(s.checkpoints);
    TimeIsKey(v.checkpoints);
    if TakenLater(s.checkpoints) {
      OrderDetermined(CheckpointKey, s.checkpoints, v.checkpoints);
    }
  }

  /**
    Without a branch called "main" the loaded session is in order under the saved history and ready to be saved
    again, whatever order the checkpoints come back in.
   */
  lemma LoadedOk(sessions: map<string, nat>, turnRows: map<string, Row<Turn>>,
                 checkpointRows: map<string, Row<Checkpoint>>,
                 sid: string, s: Session, h: History, v: Session)
    requires SessionOk(s, h) && MAIN !in s.branches
    requires Stored(sessions, turnRows, checkpointRows, sid, s) && Loaded(sessions, turnRows, checkpointRows, sid, v)
    ensures SessionOk(v, h)
    ensures Compatible(turnRows, checkpointRows, sid, s, h) ==> Compatible(turnRows, checkpointRows, sid, v, h)
  {
    RoundTrip(sessions, turnRows, checkpointRows, sid, s, h, v);
    assert v.turns == s.turns && v.branches == s.branches;
    forall p, t | In(v, p, t) ensures TurnOk(h, p, t) {
      assert In(s, p, t);
    }
    forall b | b in v.branches ensures BranchOk(v.branches[b]) {
      assert BranchOk(s.branches[b]);
    }
    CheckpointsLoad(checkpointRows, sid, s.checkpoints, v.checkpoints);
    forall i | 0 <= i < |v.checkpoints| ensures v.checkpoints[i].id in h.mentioned {
      assert v.checkpoints[i] in s.checkpoints;
    }
  }

  lemma CheckpointsLoad(checkpointRows: map<string, Row<Checkpoint>>, sid: string, saved: seq<Checkpoint>,
                        loaded: seq<Checkpoint>)
    requires Holds(checkpointRows, CheckpointId, sid, "", saved) && Holds(checkpointRows, CheckpointId, sid, "", loaded)
    requires NoDuplicates(loaded)
    ensures forall c :: c in loaded <==> c in saved
    ensures forall i, j :: 0 <= i < j < |loaded| ==> loaded[i].id != loaded[j].id
  {
    forall i, j | 0 <= i < j < |loaded| ensures loaded[i].id != loaded[j].id {
      assert loaded[i] in loaded && loaded[j] in loaded;
      assert checkpointRows[CheckpointId(loaded[i])].value == loaded[i];
      assert checkpointRows[CheckpointId(loaded[j])].value == loaded[j];
    }
  }

  lemma BranchesLoad(sessions: map<string, nat>, turnRows: map<string, Row<Turn>>,
                     checkpointRows: map<string, Row<Checkpoint>>,
                     sid: string, s: Session, h: History, branches: map<string, seq<Turn>>)
    requires SessionOk(s, h) && Stored(sessions, turnRows, checkpointRows, sid, s)
    requires LoadedBranches(turnRows, sid, branches, {})
    ensures branches == s.branches - {MAIN}
  {
    forall b ensures b in branches <==> b in s.branches && b != MAIN {
      if b in s.branches && b != MAIN {
        assert BranchOk(s.branches[b]);
        assert Named(s, b) && Kept(s, b)[0] in Kept(s, b);
      }
    }
    forall b | b in branches ensures branches[b] == s.branches[b] {
      GroupLoads(sessions, turnRows, checkpointRows, sid, s, h, b, branches[b]);
    }
  }

  lemma GroupLoads(sessions: map<string, nat>, turnRows: map<string, Row<Turn>>,
                   checkpointRows: map<string, Row<Checkpoint>>,
                   sid: string, s: Session, h: History, name: string, loaded: seq<Turn>)
    requires SessionOk(s, h) && Stored(sessions, turnRows, checkpointRows, sid, s)
    requires Named(s, name) && LoadedTurns(turnRows, sid, name, loaded)
    ensures loaded == Kept(s, name)
  {
    assert name in s.branches ==> BranchOk(s.branches[name]);
    LoadedGroup(turnRows, sid, name, Kept(s, name), loaded);
  }

  // ---------------------------------------------------------------------
  // Saving, one group at a time
  // ---------------------------------------------------------------------

  /** A name together with the turns that are written under it. */
  ghost predicate Group(s: Session, name: string, turns: seq<Turn>) {
    (name == MAIN && turns == s.turns) || (name in s.branches && turns == s.branches[name])
  }

  lemma GroupPlace(s: Session, name: string, turns: seq<Turn>) returns (p: Place)
    requires Group(s, name, turns)
    ensures HomeName(p) == name && forall t :: t in turns ==> In(s, p, t)
  {
    p := if name == MAIN && turns == s.turns then Main else Branch(name);
  }

  /** In a compatible store no group of the session can hit a conflict, and writing it keeps the store compatible. */
  lemma GroupSaves(turnRows: map<string, Row<Turn>>, checkpointRows: map<string, Row<Checkpoint>>,
                   sid: string, s: Session, h: History, name: string, turns: seq<Turn>)
    requires SessionOk(s, h) && Compatible(turnRows, checkpointRows, sid, s, h) && Group(s, name, turns)
    ensures DistinctIds(TurnId, turns) && NoClash(turnRows, TurnId, sid, name, turns)
  {
    var p := GroupPlace(s, name, turns);
    assert name in s.branches ==> BranchOk(s.branches[name]);
    forall t | t in turns && TurnId(t) in turnRows ensures Of(turnRows[TurnId(t)], sid, name) {
      assert In(s, p, t);
      assert TurnOk(h, p, t);
    }
  }

  lemma GroupSaved(before: map<string, Row<Turn>>, after: map<string, Row<Turn>>,
                   checkpointRows: map<string, Row<Checkpoint>>,
                   sid: string, s: Session, h: History, name: string, turns: seq<Turn>)
    requires SessionOk(s, h) && Compatible(before, checkpointRows, sid, s, h) && Group(s, name, turns)
    requires Holds(after, TurnId, sid, name, turns) && Elsewhere(before, after, sid, name)
    ensures Compatible(after, checkpointRows, sid, s, h)
  {
    var p := GroupPlace(s, name, turns);
    forall id | id in after && after[id].session == sid
      ensures id in h.home && HomeName(h.home[id]) == after[id].group && Named(s, after[id].group)
    {
      if Of(after[id], sid, name) {
        assert In(s, p, after[id].value);
        assert TurnOk(h, p, after[id].value);
      }
    }
  }

  /** The groups already written; "main" waits when a branch of that name is still to come. */
  ghost predicate Written(turnRows: map<string, Row<Turn>>, sid: string, s: Session, rest: set<string>) {
    forall name :: Named(s, name) && name !in rest ==> Holds(turnRows, TurnId, sid, name, Kept(s, name))
  }

  lemma WrittenNext(before: map<string, Row<Turn>>, after: map<string, Row<Turn>>, sid: string, s: Session,
                    rest: set<string>, name: string)
    requires Written(before, sid, s, rest + {name}) && name in s.branches
    requires Holds(after, TurnId, sid, name, s.branches[name]) && Elsewhere(before, after, sid, name)
    ensures Written(after, sid, s, rest)
  {
    forall other | Named(s, other) && other !in rest ensures Holds(after, TurnId, sid, other, Kept(s, other)) {
      if other != name {
        HoldsElsewhere(before, after, TurnId, sid, name, other, Kept(s, other));
      }
    }
  }

  lemma HoldsElsewhere<V>(before: map<string, Row<V>>, after: map<string, Row<V>>, idOf: V -> string,
                          sid: string, changed: string, group: string, items: seq<V>)
    requires Holds(before, idOf, sid, group, items) && Elsewhere(before, after, sid, changed) && group != changed
    ensures Holds(after, idOf, sid, group, items)
  {
  }

  lemma AllWritten(sessions: map<string, nat>, turnRows: map<string, Row<Turn>>,
                   checkpointRows: map<string, Row<Checkpoint>>,
                   sid: string, s: Session, h: History)
    requires Compatible(turnRows, checkpointRows, sid, s, h) && Written(turnRows, sid, s, {})
    requires sid in sessions && sessions[sid] == s.nextTurnNumber
    requires Holds(checkpointRows, CheckpointId, sid, "", s.checkpoints)
    ensures Stored(sessions, turnRows, checkpointRows, sid, s)
  {
  }

  lemma CheckpointsSave(turnRows: map<string, Row<Turn>>, before: map<string, Row<Checkpoint>>,
                        after: map<string, Row<Checkpoint>>,
                        sid: string, s: Session, h: History)
    requires SessionOk(s, h) && Compatible(turnRows, before, sid, s, h)
    requires Elsewhere(before, after, sid, "")
    ensures DistinctIds(CheckpointId, s.checkpoints) && NoClash(before, CheckpointId, sid, "", s.checkpoints)
    ensures Compatible(turnRows, after, sid, s, h)
  {
  }

  /** The rows of every other session are the same in both tables. */
  ghost predicate OthersSame<V>(before: map<string, Row<V>>, after: map<string, Row<V>>, sid: string) {
    && (forall id :: id in before && before[id].session != sid ==> id in after && after[id] == before[id])
    && (forall id :: id in after && after[id].session != sid ==> id in before && before[id] == after[id])
  }

  lemma OthersSameTransitive<V>(a: map<string, Row<V>>, b: map<string, Row<V>>, c: map<string, Row<V>>, sid: string,
                                group: string)
    requires OthersSame(a, b, sid) && Elsewhere(b, c, sid, group)
    ensures OthersSame(a, c, sid)
  {
  }

  // ---------------------------------------------------------------------
  // The store
  // ---------------------------------------------------------------------

  class SessionStore {
    /** Session id to its next turn number. */
    var sessions: map<string, nat>
    var turnRows: map<string, Row<Turn>>
    var checkpointRows: map<string, Row<Checkpoint>>

    ghost predicate Valid()
      reads this
    {
      && (forall id :: id in turnRows ==> turnRows[id].value.id == id)
      && (forall id :: id in checkpointRows ==> checkpointRows[id].value.id == id)
    }

    ghost predicate Has(sid: string, s: Session)
      reads this
    {
      Stored(sessions, turnRows, checkpointRows, sid, s)
    }

    ghost predicate Ready(sid: string, s: Session, h: History)
      reads this
    {
      Compatible(turnRows, checkpointRows, sid, s, h)
    }

    constructor ()
      ensures Valid() && sessions == map[] && turnRows == map[] && checkpointRows == map[]
    {
      sessions, turnRows, checkpointRows := map[], map[], map[];
    }

    /** Writes the whole session; fails at the first primary-key conflict, which a compatible store rules out. */
    method SaveSession(session: MemorySession) returns (ok: bool)
      requires Valid() && session.Valid()
      modifies this
      ensures Valid()
      ensures old(Ready(session.sessionId, session.View(), session.history)) ==>
                ok && Has(session.sessionId, session.View())
                  && Ready(session.sessionId, session.View(), session.history)
      ensures sessions == old(sessions)[session.sessionId := session.nextTurnNumber]
      ensures OthersSame(old(turnRows), turnRows, session.sessionId)
      ensures OthersSame(old(checkpointRows), checkpointRows, session.sessionId)
    {
      var sid := session.sessionId;
      ghost var s, h := session.View(), session.history;
      ghost var ready := Ready(sid, s, h);
      sessions := sessions[sid := session.nextTurnNumber];
      ok := SaveTurns(sid, session.turns, session.branches, s, h);
      if !ok {
        return;
      }
      ok := SaveCheckpoints(sid, session.checkpoints, s, h);
      if ready {
        AllWritten(sessions, turnRows, checkpointRows, sid, s, h);
      }
    }

    method SaveTurns(sid: string, turns: seq<Turn>, branches: map<string, seq<Turn>>, ghost s: Session,
                     ghost h: History)
        returns (ok: bool)
      requires Valid() && SessionOk(s, h) && branches == s.branches && turns == s.turns
      modifies this`turnRows
      ensures Valid() && OthersSame(old(turnRows), turnRows, sid)
      ensures old(Ready(sid, s, h)) ==> ok && Ready(sid, s, h) && Written(turnRows, sid, s, {})
    {
      ok := SaveGroup(sid, MAIN, turns, s, h);
      OthersSameTransitive(old(turnRows), old(turnRows), turnRows, sid, MAIN);
      if !ok {
        return;
      }
      ok := SaveBranches(sid, branches, old(turnRows), s, h);
    }

    method SaveCheckpoints(sid: string, checkpoints: seq<Checkpoint>, ghost s: Session, ghost h: History)
        returns (ok: bool)
      requires Valid() && SessionOk(s, h) && checkpoints == s.checkpoints
      modifies this`checkpointRows
      ensures Valid() && OthersSame(old(checkpointRows), checkpointRows, sid)
      ensures old(Ready(sid, s, h)) ==>
                ok && Ready(sid, s, h) && Holds(checkpointRows, CheckpointId, sid, "", s.checkpoints)
    {
      ghost var before, ready := checkpointRows, Ready(sid, s, h);
      checkpointRows, ok := ReplaceRows(checkpointRows, CheckpointId, sid, "", checkpoints);
      if ready {
        CheckpointsSave(turnRows, before, checkpointRows, sid, s, h);
      }
    }

    /** Writes the branches in any order. */
    method SaveBranches(sid: string, branches: map<string, seq<Turn>>, ghost start: map<string, Row<Turn>>,
                        ghost s: Session, ghost h: History) returns (ok: bool)
      requires Valid() && SessionOk(s, h) && branches == s.branches
      requires OthersSame(start, turnRows, sid)
      requires Ready(sid, s, h) ==> Written(turnRows, sid, s, branches.Keys)
      modifies this`turnRows
      ensures Valid() && OthersSame(start, turnRows, sid)
      ensures old(Ready(sid, s, h)) ==> ok && Ready(sid, s, h) && Written(turnRows, sid, s, {})
    {
      ok := true;
      var rest := branches.Keys;
      while rest != {}
        invariant Valid() && rest <= branches.Keys
        invariant old(Ready(sid, s, h)) ==> ok && Ready(sid, s, h) && Written(turnRows, sid, s, rest)
        invariant OthersSame(start, turnRows, sid)
      {
        var name :| name in rest;
        ghost var before := turnRows;
        ok := SaveGroup(sid, name, branches[name], s, h);
        OthersSameTransitive(start, before, turnRows, sid, name);
        if !ok {
          return;
        }
        if old(Ready(sid, s, h)) {
          assert rest - {name} + {name} == rest;
          WrittenNext(before, turnRows, sid, s, rest - {name}, name);
        }
        rest := rest - {name};
      }
    }

    method SaveGroup(sid: string, name: string, turns: seq<Turn>, ghost s: Session, ghost h: History) returns (ok: bool)
      requires Valid() && SessionOk(s, h) && Group(s, name, turns)
      modifies this`turnRows
      ensures Valid() && Elsewhere(old(turnRows), turnRows, sid, name)
      ensures ok ==> Holds(turnRows, TurnId, sid, name, turns)
      ensures old(Ready(sid, s, h)) ==> ok && Ready(sid, s, h)
    {
      ghost var before, ready := turnRows, Ready(sid, s, h);
      turnRows, ok := ReplaceRows(turnRows, TurnId, sid, name, turns);
      if ready {
        GroupSaves(before, checkpointRows, sid, s, h, name, turns);
        GroupSaved(before, turnRows, checkpointRows, sid, s, h, name, turns);
      }
    }

    /**
      Reads every group back in key order; the index is rebuilt turn by turn. What was saved in order, and without
      a branch called "main", comes back in order under the same history.
     */
    method LoadSession(sid: string, tokenizer: string -> seq<string>, ghost saved: Session, ghost h: History)
        returns (r: Option<MemorySession>)
      requires Valid()
      ensures r.None? <==> sid !in sessions
      ensures r.Some? ==>
                && fresh(r.value) && r.value.sessionId == sid && r.value.tokenize == tokenizer && r.value.Indexed()
                && fresh(r.value.index) && Loaded(sessions, turnRows, checkpointRows, sid, r.value.View())
      ensures Has(sid, saved) && SessionOk(saved, h) && MAIN !in saved.branches ==>
                r.Some? && r.value.Valid() && r.value.history == h
    {
      if sid !in sessions {
        return None;
      }
      var session := new MemorySession(sid, tokenizer);
      LoadMainTurns(session);
      LoadBranches(session);
      LoadCheckpoints(session);
      session.SetNextTurnNumber(sessions[sid]);
      session.history := h;
      if Has(sid, saved) && SessionOk(saved, h) && MAIN !in saved.branches {
        LoadedOk(sessions, turnRows, checkpointRows, sid, saved, h, session.View());
      }
      return Some(session);
    }

    /**
      Saving and then loading: with checkpoints at increasing times the session comes back exactly if and only if
      it has no branch called "main", and then the loaded session can be continued and saved in place of the old one.
     */
    method SaveThenLoad(session: MemorySession) returns (ok: bool, again: MemorySession)
      requires Valid() && session.Valid() && Ready(session.sessionId, session.View(), session.history)
      modifies this
      ensures Valid() && ok && fresh(again) && again.sessionId == session.sessionId
                && again.tokenize == session.tokenize
      ensures TakenLater(session.checkpoints) ==>
                (again.View() == session.View() <==> MAIN !in session.branches)
      ensures MAIN !in session.branches ==>
                && again.Valid() && again.history == session.history
                && Ready(again.sessionId, again.View(), again.history)
    {
      ghost var s, h := session.View(), session.history;
      ok := SaveSession(session);
      var r := LoadSession(session.sessionId, session.tokenize, s, h);
      again := r.value;
      RoundTrip(sessions, turnRows, checkpointRows, session.sessionId, s, h, again.View());
      if MAIN !in s.branches {
        LoadedOk(sessions, turnRows, checkpointRows, session.sessionId, s, h, again.View());
      }
    }

    method LoadMainTurns(session: MemorySession)
      requires Valid() && session.Indexed() && session.turns == []
      modifies session`turns, session.index
      ensures session.Indexed() && LoadedTurns(turnRows, session.sessionId, MAIN, session.turns)
    {
      var mainTurns := SelectRows(turnRows, session.sessionId, MAIN, TurnKey, TurnId);
      for i := 0 to |mainTurns|
        invariant session.Indexed() && session.turns == mainTurns[..i]
      {
        session.AddTurnRaw(mainTurns[i]);
      }
      assert mainTurns[..|mainTurns|] == mainTurns;
    }

    method LoadBranches(session: MemorySession)
      requires Valid() && session.branches == map[]
      modifies session`branches
      ensures LoadedBranches(turnRows, session.sessionId, session.branches, {})
    {
      var sid := session.sessionId;
      var rest := set id | id in turnRows && turnRows[id].session == sid && turnRows[id].group != MAIN ::
        turnRows[id].group;
      while rest != {}
        invariant forall b :: b in rest ==> b != MAIN && HasRow(turnRows, sid, b)
        invariant LoadedBranches(turnRows, sid, session.branches, rest)
      {
        var name :| name in rest;
        var branchTurns := SelectRows(turnRows, sid, name, TurnKey, TurnId);
        session.AddBranch(name, branchTurns);
        rest := rest - {name};
      }
    }

    method LoadCheckpoints(session: MemorySession)
      requires Valid() && session.checkpoints == []
      modifies session`checkpoints
      ensures Holds(checkpointRows, CheckpointId, session.sessionId, "", session.checkpoints)
      ensures InTimeOrder(session.checkpoints) && NoDuplicates(session.checkpoints)
    {
      var found := SelectRows(checkpointRows, session.sessionId, "", CheckpointKey, CheckpointId);
      for i := 0 to |found|
        invariant session.checkpoints == found[..i]
      {
        session.AddCheckpoint(found[i]);
      }
      assert found[..|found|] == found;
      TimeIsKey(found);
    }
  }
}
