/** A conversation session: main turns, named branches, checkpoints, and a search index over the main turns. */
module MemorySessions {
  import opened Prelude
  import opened InvertedIndexes

  datatype Turn = Turn(
    id: string, role: string, content: string, timestamp: int,
    parent: Option<string>, turnNumber: nat, ephemeral: bool)

  datatype Checkpoint = Checkpoint(id: string, turnId: string, title: string, timestamp: int, fileHash: Option<string>)

  /** The persistent part of a session. */
  datatype Session = Session(
    turns: seq<Turn>, branches: map<string, seq<Turn>>, checkpoints: seq<Checkpoint>, nextTurnNumber: nat)

  /** Where a turn lives. */
  datatype Place = Main | Branch(name: string)

  ghost predicate In(s: Session, p: Place, t: Turn) {
    match p
    case Main => t in s.turns
    case Branch(name) => name in s.branches && t in s.branches[name]
  }

  /**
    What the history of a session fixes: the creation rank and home of every id handed out,
    and every string that has been used as an id or as a parent. New ids avoid all of them.
   */
  datatype History = History(rank: map<string, nat>, home: map<string, Place>, mentioned: set<string>, clock: nat)

  // ---------------------------------------------------------------------
  // What every reachable session satisfies
  // ---------------------------------------------------------------------

  /** The turn is registered at its home and its parent, if it was ever created, is older. */
  ghost predicate TurnOk(h: History, p: Place, t: Turn) {
    && t.id in h.rank && t.id in h.home && h.home[t.id] == p
    && (t.parent.Some? ==> t.parent.value in h.mentioned)
    && (t.parent.Some? && t.parent.value in h.rank ==> h.rank[t.parent.value] < h.rank[t.id])
  }

  ghost predicate HistoryOk(h: History) {
    && h.rank.Keys == h.home.Keys
    && h.rank.Keys <= h.mentioned
    && forall id :: id in h.rank ==> h.rank[id] < h.clock
  }

  ghost predicate Increasing(turns: seq<Turn>) {
    forall i, j :: 0 <= i < j < |turns| ==> turns[i].turnNumber < turns[j].turnNumber
  }

  ghost predicate DistinctTurnIds(turns: seq<Turn>) {
    forall i, j :: 0 <= i < j < |turns| ==> turns[i].id != turns[j].id
  }

  ghost predicate BranchOk(turns: seq<Turn>) {
    && turns != []
    && DistinctTurnIds(turns)
    && forall i :: 0 <= i < |turns| ==> turns[i].turnNumber == i + 1
  }

  ghost predicate SessionOk(s: Session, h: History) {
    && HistoryOk(h)
    && (forall p, t {:trigger TurnOk(h, p, t)} :: In(s, p, t) ==> TurnOk(h, p, t))
    && DistinctTurnIds(s.turns)
    && Increasing(s.turns)
    && (forall i :: 0 <= i < |s.turns| ==> s.turns[i].turnNumber < s.nextTurnNumber)
    && s.nextTurnNumber >= 1
    && (forall b {:trigger BranchOk(s.branches[b])} :: b in s.branches ==> BranchOk(s.branches[b]))
    && (forall i, j :: 0 <= i < j < |s.checkpoints| ==> s.checkpoints[i].id != s.checkpoints[j].id)
    && (forall i :: 0 <= i < |s.checkpoints| ==> s.checkpoints[i].id in h.mentioned)
  }

  lemma SameIdSameTurn(s: Session, h: History, p: Place, t: Turn, q: Place, u: Turn)
    requires SessionOk(s, h) && In(s, p, t) && In(s, q, u) && t.id == u.id
    ensures p == q && t == u
  {
    assert TurnOk(h, p, t) && TurnOk(h, q, u);
    match p {
      case Main =>
        var i :| 0 <= i < |s.turns| && s.turns[i] == t;
        var j :| 0 <= j < |s.turns| && s.turns[j] == u;
      case Branch(b) =>
        assert BranchOk(s.branches[b]);
        var i :| 0 <= i < |s.branches[b]| && s.branches[b][i] == t;
        var j :| 0 <= j < |s.branches[b]| && s.branches[b][j] == u;
    }
  }

  ghost function Register(h: History, id: string, p: Place): History {
    History(h.rank[id := h.clock], h.home[id := p], h.mentioned + {id}, h.clock + 1)
  }

  ghost function Mention(h: History, id: string): History {
    h.(mentioned := h.mentioned + {id})
  }

  /** No home is ever forgotten or changed, and no branch name is ever dropped. */
  ghost predicate Grows(s: Session, h: History, s': Session, h': History) {
    && (forall id :: id in h.home ==> id in h'.home && h'.home[id] == h.home[id])
    && s.branches.Keys <= s'.branches.Keys
  }

  lemma RegisterKeeps(h: History, id: string, p: Place, q: Place, t: Turn)
    requires HistoryOk(h) && id !in h.mentioned && TurnOk(h, q, t)
    ensures HistoryOk(Register(h, id, p)) && TurnOk(Register(h, id, p), q, t)
  {
  }

  /** Appending a turn with a fresh id and the next number keeps the session in order. */
  lemma AppendOk(s: Session, h: History, t: Turn)
    requires SessionOk(s, h) && t.id !in h.mentioned && t.turnNumber == s.nextTurnNumber
    requires t.parent.Some? ==> t.parent.value in h.mentioned
    ensures SessionOk(s.(turns := s.turns + [t], nextTurnNumber := s.nextTurnNumber + 1), Register(h, t.id, Main))
  {
    var s' := s.(turns := s.turns + [t], nextTurnNumber := s.nextTurnNumber + 1);
    var h' := Register(h, t.id, Main);
    forall p, u | In(s', p, u) ensures TurnOk(h', p, u) {
      if p == Main && u == t {
        assert t.parent.Some? && t.parent.value in h.rank ==> h.rank[t.parent.value] < h.clock;
      } else {
        assert In(s, p, u);
        assert TurnOk(h, p, u);
        RegisterKeeps(h, t.id, Main, p, u);
      }
    }
    forall i | 0 <= i < |s.turns| ensures s.turns[i].id != t.id {
      assert In(s, Main, s.turns[i]);
      assert TurnOk(h, Main, s.turns[i]);
    }
    forall b | b in s'.branches ensures BranchOk(s'.branches[b]) {
      assert BranchOk(s.branches[b]);
    }
  }

  /** Replacing the older turns by a summary numbered 0 keeps the numbers strictly increasing, again and again. */
  lemma SummaryOk(s: Session, h: History, t: Turn, keep: nat)
    requires SessionOk(s, h) && keep < |s.turns|
    requires t.id !in h.mentioned && t.turnNumber == 0 && t.parent.None?
    ensures SessionOk(s.(turns := [t] + s.turns[|s.turns| - keep..]), Register(h, t.id, Main))
  {
    var kept := s.turns[|s.turns| - keep..];
    var s' := s.(turns := [t] + kept);
    var h' := Register(h, t.id, Main);
    forall p, u | In(s', p, u) ensures TurnOk(h', p, u) {
      if !(p == Main && u == t) {
        assert In(s, p, u);
        assert TurnOk(h, p, u);
        RegisterKeeps(h, t.id, Main, p, u);
      }
    }
    forall i | 0 <= i < |kept| ensures kept[i].id != t.id && kept[i].turnNumber > 0 {
      assert kept[i] == s.turns[|s.turns| - keep + i];
      assert s.turns[0].turnNumber < s.turns[|s.turns| - keep + i].turnNumber;
      assert In(s, Main, kept[i]);
      assert TurnOk(h, Main, kept[i]);
    }
    forall b | b in s'.branches ensures BranchOk(s'.branches[b]) {
      assert BranchOk(s.branches[b]);
    }
  }

  /** The turns of a branch forked at position `n - 1`. */
  function ForkedTurns(turns: seq<Turn>, ids: seq<string>, n: nat): seq<Turn>
    requires n <= |turns| && n <= |ids|
  {
    seq(n, i requires 0 <= i < n =>
      Turn(ids[i], turns[i].role, turns[i].content, turns[i].timestamp,
           if i == 0 then None else turns[i].parent, i + 1, false))
  }

  /** The copy of a turn at position `i` of a fork: what was said, by whom and when, under a new id and number. */
  ghost predicate CopyOf(original: Turn, copy: Turn, i: nat, id: string) {
    && copy.id == id
    && copy.role == original.role && copy.content == original.content && copy.timestamp == original.timestamp
    && copy.parent == (if i == 0 then None else original.parent)
    && copy.turnNumber == i + 1
    && !copy.ephemeral
  }

  /** The fork has copies of the first `n` turns, in order, under the given ids. */
  ghost predicate ForkOf(turns: seq<Turn>, fork: seq<Turn>, ids: seq<string>, n: nat) {
    && n <= |turns| && n <= |ids| && |fork| == n
    && forall i {:trigger fork[i]} :: 0 <= i < n ==> CopyOf(turns[i], fork[i], i, ids[i])
  }

  ghost function RegisterAll(h: History, ids: seq<string>, n: nat, p: Place): History
    requires n <= |ids|
  {
    if n == 0 then h else Register(RegisterAll(h, ids, n - 1, p), ids[n - 1], p)
  }

  ghost predicate FreshIds(h: History, ids: seq<string>) {
    NoDuplicates(ids) && forall i :: 0 <= i < |ids| ==> ids[i] !in h.mentioned
  }

  /** `h'` extends `h` by exactly the ids in `used`, all at home in `p` and younger than everything before. */
  ghost predicate Registered(h: History, used: set<string>, p: Place, h': History) {
    && HistoryOk(h')
    && h'.mentioned == h.mentioned + used
    && h'.clock >= h.clock
    && (forall id :: id in h.rank ==> id in h'.rank && h'.rank[id] == h.rank[id])
    && (forall id :: id in h.home ==> id in h'.home && h'.home[id] == h.home[id])
    && (forall id :: id in used ==> id in h'.rank && h'.rank[id] >= h.clock && h'.home[id] == p)
    && (forall id :: id in h'.rank ==> id in h.rank || id in used)
  }

  lemma RegisterNext(h: History, used: set<string>, id: string, p: Place, m: History)
    requires HistoryOk(h) && Registered(h, used, p, m) && id !in h.mentioned && id !in used
    ensures Registered(h, used + {id}, p, Register(m, id, p))
  {
  }

  lemma {:induction false} RegisterAllOk(h: History, ids: seq<string>, n: nat, p: Place)
    requires HistoryOk(h) && FreshIds(h, ids) && n <= |ids|
    ensures Registered(h, Elements(ids[..n]), p, RegisterAll(h, ids, n, p))
  {
    if n == 0 {
      assert Elements(ids[..0]) == {};
    } else {
      RegisterAllOk(h, ids, n - 1, p);
      RegisterNext(h, Elements(ids[..n - 1]), ids[n - 1], p, RegisterAll(h, ids, n - 1, p));
      assert ids[..n] == ids[..n - 1] + [ids[n - 1]];
      assert Elements(ids[..n]) == Elements(ids[..n - 1]) + {ids[n - 1]};
    }
  }

  /** Registering a fork leaves every turn in order: a copy keeps its original's parent, which is older still. */
  lemma ForkedTurnOk(h: History, used: set<string>, p: Place, h': History, q: Place, t: Turn)
    requires HistoryOk(h) && used !! h.mentioned && Registered(h, used, p, h') && TurnOk(h, q, t)
    ensures TurnOk(h', q, t)
    ensures forall id :: id in used ==> TurnOk(h', p, t.(id := id, parent := None)) && TurnOk(h', p, t.(id := id))
  {
    assert t.parent.Some? && t.parent.value in h'.rank ==> t.parent.value in h.rank by {
      assert t.parent.Some? ==> t.parent.value in h.mentioned;
    }
  }

  lemma ForkOk(s: Session, h: History, ids: seq<string>, n: nat, name: string)
    requires SessionOk(s, h) && FreshIds(h, ids) && 0 < n <= |s.turns| && n <= |ids|
    ensures SessionOk(s.(branches := s.branches[name := ForkedTurns(s.turns, ids, n)]),
              RegisterAll(h, ids, n, Branch(name)))
  {
    var forked := ForkedTurns(s.turns, ids, n);
    var s' := s.(branches := s.branches[name := forked]);
    var h' := RegisterAll(h, ids, n, Branch(name));
    var used := Elements(ids[..n]);
    RegisterAllOk(h, ids, n, Branch(name));
    forall p, u | In(s', p, u) ensures TurnOk(h', p, u) {
      if p == Branch(name) {
        var i :| 0 <= i < n && forked[i] == u;
        assert In(s, Main, s.turns[i]);
        assert ids[i] in used by {
          assert ids[..n][i] == ids[i];
        }
        ForkedTurnOk(h, used, p, h', Main, s.turns[i]);
        assert TurnOk(h', p, s.turns[i].(id := ids[i]));
      } else {
        assert In(s, p, u);
        ForkedTurnOk(h, used, Branch(name), h', p, u);
      }
    }
    forall b | b in s'.branches ensures BranchOk(s'.branches[b]) {
      assert b != name ==> BranchOk(s.branches[b]);
    }
  }

  // ---------------------------------------------------------------------
  // Lineage
  // ---------------------------------------------------------------------

  /** The turn with this id, wherever it lives. */
  ghost predicate Resolves(s: Session, id: string, t: Turn) {
    t.id == id && exists p :: In(s, p, t)
  }

  ghost predicate Unknown(s: Session, id: string) {
    forall p, t :: In(s, p, t) ==> t.id != id
  }

  /** Root first, each turn the parent of the next, ending in the turn asked for; the root has no known parent. */
  ghost predicate Lineage(s: Session, id: string, path: seq<Turn>) {
    && (path == [] <==> Unknown(s, id))
    && (forall i :: 0 <= i < |path| ==> Resolves(s, path[i].id, path[i]))
    && (path != [] ==> path[|path| - 1].id == id)
    && (forall i :: 0 < i < |path| ==> path[i].parent == Some(path[i - 1].id))
    && (path != [] && path[0].parent.Some? ==> Unknown(s, path[0].parent.value))
  }

  /** Distance a walk along parents can still cover: ranks strictly decrease. */
  ghost function Depth(h: History, current: Option<string>): nat {
    match current
    case None => 0
    case Some(id) => if id in h.rank then h.rank[id] + 2 else 1
  }

  lemma ParentCloser(s: Session, h: History, t: Turn, p: Place)
    requires SessionOk(s, h) && In(s, p, t)
    ensures Depth(h, t.parent) < Depth(h, Some(t.id))
  {
    assert TurnOk(h, p, t);
  }

  function FindTurn(turns: seq<Turn>, id: string): (r: Option<Turn>)
    ensures r.Some? ==> r.value in turns && r.value.id == id
    ensures r.None? ==> forall t :: t in turns ==> t.id != id
  {
    if turns == [] then None
    else if turns[0].id == id then Some(turns[0])
    else FindTurn(turns[1..], id)
  }

  // ---------------------------------------------------------------------
  // The session object
  // ---------------------------------------------------------------------

  ghost function Documents(tokenize: string -> seq<string>, turns: seq<Turn>): seq<seq<string>> {
    seq(|turns|, i requires 0 <= i < |turns| => tokenize(turns[i].content))
  }

  lemma DocumentsSnoc(tokenize: string -> seq<string>, turns: seq<Turn>, t: Turn)
    ensures Documents(tokenize, turns + [t])
         == WithDocument(Documents(tokenize, turns), |turns|, tokenize(t.content))
  {
  }

  class MemorySession {
    const sessionId: string
    const tokenize: string -> seq<string>
    const index: InvertedIndex
    var turns: seq<Turn>
    var branches: map<string, seq<Turn>>
    var checkpoints: seq<Checkpoint>
    var nextTurnNumber: nat
    var dirty: bool
    ghost var history: History

    function View(): Session
      reads this
    {
      Session(turns, branches, checkpoints, nextTurnNumber)
    }

    /** The index is exactly the index of the current main turns. */
    ghost predicate Indexed()
      reads this, index
    {
      index.Valid() && index.docs == Documents(tokenize, turns)
    }

    ghost predicate Valid()
      reads this, index
    {
      SessionOk(View(), history) && Indexed()
    }

    constructor (id: string, tokenizer: string -> seq<string>)
      ensures Valid() && fresh(index)
      ensures sessionId == id && tokenize == tokenizer && View() == Session([], map[], [], 1)
      ensures history == History(map[], map[], {}, 0)
    {
      sessionId, tokenize := id, tokenizer;
      turns, branches, checkpoints, nextTurnNumber, dirty := [], map[], [], 1, false;
      history := History(map[], map[], {}, 0);
      index := new InvertedIndex();
    }

    method AddTurn(role: string, content: string, id: string, now: int)
      requires Valid() && id !in history.mentioned
      modifies this, index
      ensures Valid()
      ensures View() == old(View()).(
                turns := old(turns) + [Turn(id, role, content, now,
                                            if old(turns) == [] then None else Some(old(turns)[|old(turns)| - 1].id),
                                            old(nextTurnNumber), false)],
                nextTurnNumber := old(nextTurnNumber) + 1)
      ensures history == Register(old(history), id, Main) && Grows(old(View()), old(history), View(), history)
    {
      var parent := if turns == [] then None else Some(turns[|turns| - 1].id);
      if turns != [] {
        assert In(View(), Main, turns[|turns| - 1]);
        assert TurnOk(history, Main, turns[|turns| - 1]);
      }
      Append(Turn(id, role, content, now, parent, nextTurnNumber, false));
    }

    /** The parent may be any string; an unknown one simply ends the lineage. */
    method AddTurnUnder(role: string, content: string, parentTurnId: string, id: string, now: int)
      requires Valid() && id !in history.mentioned && id != parentTurnId
      modifies this, index
      ensures Valid()
      ensures View() == old(View()).(
                turns := old(turns) + [Turn(id, role, content, now, Some(parentTurnId), old(nextTurnNumber), false)],
                nextTurnNumber := old(nextTurnNumber) + 1)
      ensures history == Register(Mention(old(history), parentTurnId), id, Main)
      ensures Grows(old(View()), old(history), View(), history)
    {
      ghost var before := history;
      history := Mention(history, parentTurnId);
      forall p, t | In(View(), p, t) ensures TurnOk(history, p, t) {
        assert TurnOk(before, p, t);
      }
      forall b | b in branches ensures BranchOk(branches[b]) {
      }
      Append(Turn(id, role, content, now, Some(parentTurnId), nextTurnNumber, false));
    }

    /** Appends a fully built turn, as loading does. */
    method AddTurnRaw(turn: Turn)
      requires Indexed()
      modifies this`turns, index
      ensures Indexed() && turns == old(turns) + [turn]
    {
      index.AddDocument(|turns|, tokenize(turn.content));
      DocumentsSnoc(tokenize, turns, turn);
      turns := turns + [turn];
    }

    method AddBranch(name: string, branchTurns: seq<Turn>)
      modifies this`branches
      ensures branches == old(branches)[name := branchTurns]
    {
      branches := branches[name := branchTurns];
    }

    method AddCheckpoint(cp: Checkpoint)
      modifies this`checkpoints
      ensures checkpoints == old(checkpoints) + [cp]
    {
      checkpoints := checkpoints + [cp];
    }

    method SetNextTurnNumber(n: nat)
      modifies this`nextTurnNumber
      ensures nextTurnNumber == n
    {
      nextTurnNumber := n;
    }

    method Append(turn: Turn)
      requires Valid() && turn.id !in history.mentioned && turn.turnNumber == nextTurnNumber
      requires turn.parent.Some? ==> turn.parent.value in history.mentioned
      modifies this, index
      ensures Valid()
      ensures View() == old(View()).(turns := old(turns) + [turn], nextTurnNumber := old(nextTurnNumber) + 1)
      ensures history == Register(old(history), turn.id, Main)
    {
      AppendOk(View(), history, turn);
      nextTurnNumber := nextTurnNumber + 1;
      AddTurnRaw(turn);
      history := Register(history, turn.id, Main);
    }

    /** Copies the turns up to and including `fromTurnId` into a branch; an unknown turn leaves the session alone. */
    method Fork(fromTurnId: string, branchName: string, ids: seq<string>) returns (forkId: string)
      requires Valid() && FreshIds(history, ids) && |ids| >= |turns|
      modifies this
      ensures Valid() && turns == old(turns) && nextTurnNumber == old(nextTurnNumber) && checkpoints == old(checkpoints)
      ensures Grows(old(View()), old(history), View(), history)
      ensures forkId == sessionId + "-" + branchName
      ensures FindTurn(old(turns), fromTurnId).None? ==> View() == old(View()) && history == old(history)
      ensures FindTurn(old(turns), fromTurnId).Some? ==>
                exists n: nat :: 0 < n <= |old(turns)| && old(turns)[n - 1].id == fromTurnId
                  && branchName in branches && ForkOf(old(turns), branches[branchName], ids, n)
                  && branches == old(branches)[branchName := branches[branchName]]
                  && history == RegisterAll(old(history), ids, n, Branch(branchName))
    {
      forkId := sessionId + "-" + branchName;
      var idx := 0;
      while idx < |turns| && turns[idx].id != fromTurnId
        invariant idx <= |turns|
        invariant forall i :: 0 <= i < idx ==> turns[i].id != fromTurnId
      {
        idx := idx + 1;
      }
      if idx < |turns| {
        assert turns[idx] in turns;
        ForkAt(idx + 1, branchName, ids);
      } else {
        assert forall t :: t in turns ==> t.id != fromTurnId;
      }
    }

    /** Copies the first `n` turns into a branch. */
    method ForkAt(n: nat, branchName: string, ids: seq<string>)
      requires Valid() && FreshIds(history, ids) && 0 < n <= |turns| && n <= |ids|
      modifies this`branches, this`history
      ensures Valid() && Grows(old(View()), old(history), View(), history)
      ensures branchName in branches && ForkOf(turns, branches[branchName], ids, n)
      ensures branches == old(branches)[branchName := branches[branchName]]
      ensures history == RegisterAll(old(history), ids, n, Branch(branchName))
    {
      ForkOk(View(), history, ids, n, branchName);
      RegisterAllOk(history, ids, n, Branch(branchName));
      branches := branches[branchName := ForkedTurns(turns, ids, n)];
      history := RegisterAll(history, ids, n, Branch(branchName));
    }

    /** A checkpoint of the last turn; an empty session gets none. */
    method CreateCheckpoint(title: string, fileHash: Option<string>, id: string, now: int)
      requires Valid() && id !in history.mentioned
      modifies this
      ensures Valid() && turns == old(turns) && branches == old(branches) && nextTurnNumber == old(nextTurnNumber)
      ensures Grows(old(View()), old(history), View(), history)
      ensures checkpoints ==
              if turns == [] then old(checkpoints)
              else old(checkpoints) + [Checkpoint(id, turns[|turns| - 1].id, title, now, fileHash)]
    {
      if turns != [] {
        ghost var before := history;
        checkpoints := checkpoints + [Checkpoint(id, turns[|turns| - 1].id, title, now, fileHash)];
        history := Mention(history, id);
        forall p, t | In(View(), p, t) ensures TurnOk(history, p, t) {
          assert TurnOk(before, p, t);
        }
        forall b | b in branches ensures BranchOk(branches[b]) {
        }
      }
    }

    /** Replaces all but the most recent turns by a summary and rebuilds the index. */
    method ReplaceWithSummary(summary: string, keepRecent: nat, id: string, now: int)
      requires Valid() && id !in history.mentioned
      modifies this, index
      ensures Valid() && branches == old(branches) && checkpoints == old(checkpoints)
                && nextTurnNumber == old(nextTurnNumber)
      ensures Grows(old(View()), old(history), View(), history)
      ensures keepRecent >= |old(turns)| ==> turns == old(turns) && dirty == old(dirty)
      ensures keepRecent < |old(turns)| ==>
                && turns == [Turn(id, "system", "[Compacted history]\n" + summary, now, None, 0, false)]
                            + old(turns)[|old(turns)| - keepRecent..]
                && dirty
    {
      if keepRecent >= |turns| {
        return;
      }
      KeepRecent(Turn(id, "system", "[Compacted history]\n" + summary, now, None, 0, false), keepRecent);
    }

    method KeepRecent(summaryTurn: Turn, keepRecent: nat)
      requires Valid() && summaryTurn.id !in history.mentioned && keepRecent < |turns|
      requires summaryTurn.turnNumber == 0 && summaryTurn.parent.None?
      modifies this, index
      ensures Valid() && dirty
      ensures View() == old(View()).(turns := [summaryTurn] + old(turns)[|old(turns)| - keepRecent..])
      ensures history == Register(old(history), summaryTurn.id, Main)
    {
      Compact(summaryTurn, keepRecent);
      IndexTurns();
    }

    /** Puts the summary in place of the older turns; the index is behind until it is rebuilt. */
    method Compact(summaryTurn: Turn, keepRecent: nat)
      requires SessionOk(View(), history) && summaryTurn.id !in history.mentioned && keepRecent < |turns|
      requires summaryTurn.turnNumber == 0 && summaryTurn.parent.None?
      modifies this`turns, this`history, this`dirty
      ensures SessionOk(View(), history) && dirty
      ensures View() == old(View()).(turns := [summaryTurn] + old(turns)[|old(turns)| - keepRecent..])
      ensures history == Register(old(history), summaryTurn.id, Main)
    {
      SummaryOk(View(), history, summaryTurn, keepRecent);
      history := Register(history, summaryTurn.id, Main);
      ghost var compacted := View().(turns := [summaryTurn] + turns[|turns| - keepRecent..]);
      turns := [summaryTurn] + turns[|turns| - keepRecent..];
      dirty := true;
      assert View() == compacted;
    }

    /** Empties the index and adds every main turn under its position. */
    method IndexTurns()
      modifies index
      ensures Indexed()
    {
      index.Clear();
      for i := 0 to |turns|
        invariant index.Valid() && index.docs == Documents(tokenize, turns[..i])
      {
        index.AddDocument(i, tokenize(turns[i].content));
        DocumentsSnoc(tokenize, turns[..i], turns[i]);
        assert turns[..i + 1] == turns[..i] + [turns[i]];
      }
      assert turns[..|turns|] == turns;
    }

    /** Looks in the main turns, then in the branches in any order. */
    method GetTurnById(id: string) returns (r: Option<Turn>)
      requires Valid()
      ensures r.Some? ==> Resolves(View(), id, r.value)
      ensures r.None? ==> Unknown(View(), id)
    {
      r := FindTurn(turns, id);
      if r.Some? {
        assert In(View(), Main, r.value);
        return;
      }
      var rest := branches.Keys;
      while rest != {}
        invariant rest <= branches.Keys && r.None?
        invariant forall b, t :: b in branches && b !in rest && t in branches[b] ==> t.id != id
      {
        var b :| b in rest;
        rest := rest - {b};
        r := FindTurn(branches[b], id);
        if r.Some? {
          assert In(View(), Branch(b), r.value);
          return;
        }
      }
      forall p, t | In(View(), p, t) ensures t.id != id {
        match p
        case Main =>
        case Branch(b) => assert t in branches[b];
      }
    }

    /**
      Collects ids along the parent chain, which ends because parents are older, then looks the turns up root first.
     */
    method TurnLineage(turnId: string) returns (path: seq<Turn>)
      requires Valid()
      ensures Lineage(View(), turnId, path)
    {
      var ids := [];
      var current := Some(turnId);
      ghost var found := [];
      while current.Some?
        invariant Ids(found) == ids
        invariant Chain(View(), turnId, found, current)
        decreases Depth(history, current)
      {
        var t := GetTurnById(current.value);
        ids := [current.value] + ids;
        if t.None? {
          break;
        }
        ghost var p :| In(View(), p, t.value);
        ParentCloser(View(), history, t.value, p);
        found := [t.value] + found;
        current := t.value.parent;
      }
      assert Lineage(View(), turnId, found) by {
        if found != [] {
          KnownTurn(View(), turnId, found[|found| - 1]);
        }
      }
      path := Resolve(ids, found);
    }

    /** Looks up every id in turn and drops the one that is not known. */
    method Resolve(ids: seq<string>, ghost found: seq<Turn>) returns (path: seq<Turn>)
      requires Valid() && forall t :: t in found ==> Resolves(View(), t.id, t)
      requires ids == Ids(found) || (ids != [] && ids[1..] == Ids(found) && Unknown(View(), ids[0]))
      ensures path == found
    {
      path := [];
      ghost var skipped := |ids| - |found|;
      for i := 0 to |ids|
        invariant path == if i < skipped then [] else found[..i - skipped]
      {
        ghost var known := if i < skipped then None else Some(found[i - skipped]);
        if i >= skipped {
          assert ids[i] == Ids(found)[i - skipped] && known.value in found;
          assert found[..i + 1 - skipped] == found[..i - skipped] + [known.value];
        }
        var t := ResolveOne(ids[i], known);
        path := path + if t.Some? then [t.value] else [];
      }
    }

    method ResolveOne(id: string, ghost known: Option<Turn>) returns (t: Option<Turn>)
      requires Valid() && (known.None? ==> Unknown(View(), id))
      requires known.Some? ==> known.value.id == id && Resolves(View(), id, known.value)
      ensures t == known
    {
      t := GetTurnById(id);
      if known.Some? {
        KnownTurn(View(), id, known.value);
        SameTurn(View(), history, known.value, t.value);
      }
    }
  }

  function Ids(turns: seq<Turn>): seq<string> {
    seq(|turns|, i requires 0 <= i < |turns| => turns[i].id)
  }

  /** A lineage under construction: everything but the root condition, with `current` the next id to look up. */
  ghost predicate Chain(s: Session, id: string, path: seq<Turn>, current: Option<string>) {
    && (forall i :: 0 <= i < |path| ==> Resolves(s, path[i].id, path[i]))
    && (path == [] ==> current == Some(id))
    && (path != [] ==> path[|path| - 1].id == id && current == path[0].parent)
    && (forall i :: 0 < i < |path| ==> path[i].parent == Some(path[i - 1].id))
  }

  lemma SameTurn(s: Session, h: History, t: Turn, u: Turn)
    requires SessionOk(s, h) && t.id == u.id && Resolves(s, t.id, t) && Resolves(s, u.id, u)
    ensures t == u
  {
    var p :| In(s, p, t);
    var q :| In(s, q, u);
    SameIdSameTurn(s, h, p, t, q, u);
  }

  lemma KnownTurn(s: Session, id: string, t: Turn)
    requires Resolves(s, t.id, t) && t.id == id
    ensures !Unknown(s, id)
  {
    var p :| In(s, p, t);
  }
}
