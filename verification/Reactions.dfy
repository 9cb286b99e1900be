/** Reaction rows and the counters derived from them. */
module Reactions {
  import opened Options
  import opened Ordering

  /** Emojis are numbered in the order in which the database sorts them. */
  datatype Row = Row(message: nat, user: int, emoji: nat)

  datatype Slot = Slot(message: nat, emoji: nat)

  datatype Group = Group(emoji: nat, count: int)

  datatype Tables = Tables(rows: set<Row>, counters: map<Slot, int>)

  function Reactors(rows: set<Row>, at: Slot): set<int> {
    set r | r in rows && r.message == at.message && r.emoji == at.emoji :: r.user
  }

  /** A counter exists exactly when a reaction does, and counts them. */
  ghost predicate CountedAt(t: Tables, at: Slot) {
    && (at in t.counters <==> Reactors(t.rows, at) != {})
    && (at in t.counters ==> t.counters[at] == |Reactors(t.rows, at)|)
  }

  ghost predicate Counted(t: Tables) {
    forall at: Slot :: CountedAt(t, at)
  }

  /** INSERT .. DO NOTHING, then INSERT .. DO UPDATE count + 1 if a row was inserted. */
  function Add(t: Tables, row: Row): (Tables, Option<int>) {
    var at := Slot(row.message, row.emoji);
    if row in t.rows then (t, None)
    else
      var count := if at in t.counters then t.counters[at] + 1 else 1;
      (Tables(t.rows + {row}, t.counters[at := count]), Some(count))
  }

  /** DELETE, then count - 1 if a row was deleted, then drop the counter if it is not positive. */
  function Remove(t: Tables, row: Row): (Tables, Option<int>) {
    var at := Slot(row.message, row.emoji);
    if row !in t.rows then (t, None)
    else if at !in t.counters then (Tables(t.rows - {row}, t.counters), Some(0))
    else
      var count := t.counters[at] - 1;
      (Tables(t.rows - {row}, if count <= 0 then t.counters - {at} else t.counters[at := count]), Some(count))
  }

  lemma ReactorsChange(rows: set<Row>, row: Row, at: Slot)
    requires row !in rows
    ensures Reactors(rows + {row}, at) ==
              Reactors(rows, at) + if at == Slot(row.message, row.emoji) then {row.user} else {}
    ensures at == Slot(row.message, row.emoji) ==> row.user !in Reactors(rows, at)
  {
    assert forall r <- rows :: r != row ==> Slot(r.message, r.emoji) != Slot(row.message, row.emoji) || r.user != row.user;
    assert forall r :: r in rows + {row} <==> r in rows || r == row;
  }

  lemma AddCounted(t: Tables, row: Row)
    requires Counted(t)
    ensures var (r, count) := Add(t, row);
            && Counted(r) && (count.Some? <==> row !in t.rows) && r.rows == t.rows + {row}
            && (count.Some? ==> count.value == |Reactors(r.rows, Slot(row.message, row.emoji))|)
  {
    if row !in t.rows {
      var r := Add(t, row).0;
      forall at: Slot ensures CountedAt(r, at) {
        assert CountedAt(t, at);
        ReactorsChange(t.rows, row, at);
      }
      assert CountedAt(r, Slot(row.message, row.emoji));
    }
  }

  lemma RemoveCounted(t: Tables, row: Row)
    requires Counted(t)
    ensures var (r, count) := Remove(t, row);
            && Counted(r) && (count.Some? <==> row in t.rows) && r.rows == t.rows - {row}
            && (count.Some? ==> count.value == |Reactors(r.rows, Slot(row.message, row.emoji))|)
  {
    if row in t.rows {
      var slot := Slot(row.message, row.emoji);
      var r := Remove(t, row).0;
      assert r.rows + {row} == t.rows;
      forall at: Slot ensures CountedAt(r, at) {
        assert CountedAt(t, at);
        ReactorsChange(r.rows, row, at);
      }
      ReactorsChange(r.rows, row, slot);
      assert CountedAt(t, slot);
    }
  }

  /** The rows determine the counters. */
  lemma CountersDetermined(t: Tables, u: Tables)
    requires Counted(t) && Counted(u) && t.rows == u.rows
    ensures t == u
  {
    forall at: Slot ensures at in t.counters <==> at in u.counters
                    ensures at in t.counters ==> t.counters[at] == u.counters[at] {
      assert CountedAt(t, at) && CountedAt(u, at);
    }
  }

  /** DELETE all counters of the message, INSERT .. SELECT COUNT(*) GROUP BY emoji. */
  function Recounted(t: Tables, message: nat): Tables {
    var slots := set r | r in t.rows && r.message == message :: Slot(message, r.emoji);
    Tables(t.rows,
           map at | at in t.counters.Keys + slots && (at.message != message || at in slots) ::
             if at.message == message then |Reactors(t.rows, at)| else t.counters[at])
  }

  /** Whatever the counters were, `recount` makes those of its message right and
      leaves the others; on counters that were right it changes nothing. */
  lemma RecountRepairs(t: Tables, message: nat)
    ensures var r := Recounted(t, message);
            && r.rows == t.rows
            && (forall at: Slot :: at.message == message ==> CountedAt(r, at))
            && (forall at: Slot :: at.message != message ==>
                  (at in r.counters <==> at in t.counters) && (at in r.counters ==> r.counters[at] == t.counters[at]))
            && (Counted(t) ==> r == t)
  {
    var r := Recounted(t, message);
    forall at: Slot | at.message == message ensures CountedAt(r, at) {
      if at in r.counters {
        var row :| row in t.rows && row.message == message && Slot(message, row.emoji) == at;
        assert row.user in Reactors(t.rows, at);
      } else {
        assert forall row <- t.rows :: row.message == message ==> Slot(message, row.emoji) in r.counters;
      }
    }
    if Counted(t) {
      forall at: Slot ensures CountedAt(r, at) {
        assert CountedAt(t, at);
      }
      CountersDetermined(t, r);
    }
  }

  datatype Op = AddOp(row: Row) | RemoveOp(row: Row) | RecountOp(message: nat)

  /** `set_reactions` is a sequence of additions and removals. */
  function Run(ops: seq<Op>): Tables {
    if ops == [] then Tables({}, map[])
    else
      var t := Run(ops[..|ops| - 1]);
      match ops[|ops| - 1]
      case AddOp(row) => Add(t, row).0
      case RemoveOp(row) => Remove(t, row).0
      case RecountOp(message) => Recounted(t, message)
  }

  /** After any sequence of operations every counter is right, and recounting
      any message changes nothing. */
  lemma {:induction false} AlwaysCounted(ops: seq<Op>, message: nat)
    ensures Counted(Run(ops)) && Recounted(Run(ops), message) == Run(ops)
  {
    if ops == [] {
      forall at: Slot ensures CountedAt(Run(ops), at) {
        assert Reactors({}, at) == {};
      }
    } else {
      var t := Run(ops[..|ops| - 1]);
      AlwaysCounted(ops[..|ops| - 1], message);
      match ops[|ops| - 1]
      case AddOp(row) => AddCounted(t, row);
      case RemoveOp(row) => RemoveCounted(t, row);
      case RecountOp(m) => RecountRepairs(t, m);
    }
    RecountRepairs(Run(ops), message);
  }

  function UserEmojis(rows: set<Row>, message: nat, user: int): set<nat> {
    set r | r in rows && r.message == message && r.user == user :: r.emoji
  }

  function RowsOf(message: nat, user: int, emojis: set<nat>): set<Row> {
    set e | e in emojis :: Row(message, user, e)
  }

  class MessageReactionRepository {
    var rows: set<Row>
    var counters: map<Slot, int>

    constructor ()
      ensures View() == Tables({}, map[]) && Counted(View())
    {
      rows, counters := {}, map[];
      new;
      forall at: Slot ensures CountedAt(View(), at) {
        assert Reactors(rows, at) == {};
      }
    }

    ghost function View(): Tables
      reads this
    {
      Tables(rows, counters)
    }

    method AddReaction(message: nat, user: int, emoji: nat) returns (count: Option<int>)
      modifies this
      ensures (View(), count) == Add(old(View()), Row(message, user, emoji))
      ensures old(Counted(View())) ==> Counted(View())
    {
      ghost var t := View();
      var at := Slot(message, emoji);
      if Row(message, user, emoji) in rows {
        return None;
      }
      rows := rows + {Row(message, user, emoji)};
      counters := counters[at := if at in counters then counters[at] + 1 else 1];
      count := Some(counters[at]);
      if Counted(t) { AddCounted(t, Row(message, user, emoji)); }
    }

    method RemoveReaction(message: nat, user: int, emoji: nat) returns (count: Option<int>)
      modifies this
      ensures (View(), count) == Remove(old(View()), Row(message, user, emoji))
      ensures old(Counted(View())) ==> Counted(View())
    {
      ghost var t := View();
      var at := Slot(message, emoji);
      if Row(message, user, emoji) !in rows {
        return None;
      }
      rows := rows - {Row(message, user, emoji)};
      count := Some(0);
      if at in counters {
        counters := counters[at := counters[at] - 1];
        count := Some(counters[at]);
      }
      if at in counters && counters[at] <= 0 {
        counters := counters - {at};
        assert counters == t.counters - {at};
      }
      if Counted(t) { RemoveCounted(t, Row(message, user, emoji)); }
    }

    method RemoveEach(message: nat, user: int, emojis: set<nat>)
      modifies this
      ensures rows == old(rows) - RowsOf(message, user, emojis)
      ensures old(Counted(View())) ==> Counted(View())
    {
      ghost var t := View();
      var rest := emojis;
      while rest != {}
        invariant rest <= emojis && rows == t.rows - RowsOf(message, user, emojis - rest)
        invariant Counted(t) ==> Counted(View())
        decreases rest
      {
        var e :| e in rest;
        var _ := RemoveReaction(message, user, e);
        rest := rest - {e};
      }
      assert emojis - {} == emojis;
    }

    method AddEach(message: nat, user: int, emojis: set<nat>)
      modifies this
      ensures rows == old(rows) + RowsOf(message, user, emojis)
      ensures old(Counted(View())) ==> Counted(View())
    {
      ghost var t := View();
      var rest := emojis;
      while rest != {}
        invariant rest <= emojis && rows == t.rows + RowsOf(message, user, emojis - rest)
        invariant Counted(t) ==> Counted(View())
        decreases rest
      {
        var e :| e in rest;
        var _ := AddReaction(message, user, e);
        rest := rest - {e};
      }
      assert emojis - {} == emojis;
    }

    /** Afterwards the user's emojis are the target set; nobody else's rows and no
        other message's rows change, and the counters stay right. */
    method SetReactions(message: nat, user: int, emojis: seq<nat>) returns (changed: bool)
      modifies this
      ensures UserEmojis(rows, message, user) == Members(emojis)
      ensures forall e: nat :: Row(message, user, e) in rows <==> e in emojis
      ensures forall r: Row :: r.message != message || r.user != user ==> (r in rows <==> r in old(rows))
      ensures changed <==> rows != old(rows)
      ensures !changed ==> counters == old(counters)
      ensures old(Counted(View())) ==> Counted(View())
    {
      ghost var t := View();
      var current := set r | r in rows && r.message == message && r.user == user :: r.emoji;
      var target := Members(emojis);
      var toAdd, toRemove := target - current, current - target;
      assert forall e :: e in current <==> Row(message, user, e) in rows;
      if toAdd == {} && toRemove == {} {
        return false;
      }
      RemoveEach(message, user, toRemove);
      AddEach(message, user, toAdd);
      assert forall e :: Row(message, user, e) in rows <==> e in target;
      var e :| e in toAdd + toRemove;
      assert Row(message, user, e) in rows <==> Row(message, user, e) !in t.rows;
      return true;
    }

    method Recount(message: nat)
      modifies this
      ensures View() == Recounted(old(View()), message)
    {
      counters := counters - set at | at in counters && at.message == message;
      CountSlots(set r | r in rows && r.message == message :: Slot(message, r.emoji));
    }

    method CountSlots(slots: set<Slot>)
      modifies this`counters
      ensures counters.Keys == old(counters).Keys + slots
      ensures forall at <- counters :: counters[at] == if at in slots then |Reactors(rows, at)| else old(counters)[at]
    {
      var rest := slots;
      while rest != {}
        invariant rest <= slots && counters.Keys == old(counters).Keys + (slots - rest)
        invariant forall at <- counters :: counters[at] ==
                    if at in slots - rest then |Reactors(rows, at)| else old(counters)[at]
        decreases rest
      {
        var at :| at in rest;
        counters := counters[at := |Reactors(rows, at)|];
        rest := rest - {at};
      }
    }
  }

  // ----- reading the groups of one message, or of many at once -----

  /** ORDER BY count DESC, emoji ASC. */
  predicate Before(a: Group, b: Group) {
    a.count > b.count || (a.count == b.count && a.emoji < b.emoji)
  }

  function GroupSet(counters: map<Slot, int>, message: nat): set<Group> {
    set at | at in counters && at.message == message && counters[at] > 0 :: Group(at.emoji, counters[at])
  }

  /** The answer of `get_current_groups`; there is only one such list. */
  ghost predicate IsCurrentGroups(counters: map<Slot, int>, message: nat, groups: seq<Group>) {
    Lists(Before, groups, GroupSet(counters, message))
  }

  lemma CurrentGroupsUnique(counters: map<Slot, int>, message: nat, a: seq<Group>, b: seq<Group>)
    requires IsCurrentGroups(counters, message, a) && IsCurrentGroups(counters, message, b)
    ensures a == b
  {
    Unique(Before, a, b, GroupSet(counters, message));
  }

  /** What a reader sees: each emoji that somebody reacted with, with the number of
      users who did, the most frequent first and equal ones by emoji. */
  lemma GroupsShowReactions(t: Tables, message: nat, groups: seq<Group>)
    requires Counted(t) && IsCurrentGroups(t.counters, message, groups)
    ensures forall g: Group :: g in groups <==>
              Reactors(t.rows, Slot(message, g.emoji)) != {} && g.count == |Reactors(t.rows, Slot(message, g.emoji))|
    ensures forall i, j :: 0 <= i < j < |groups| ==>
              groups[i].count > groups[j].count || (groups[i].count == groups[j].count && groups[i].emoji < groups[j].emoji)
  {
    forall g: Group
      ensures g in GroupSet(t.counters, message) <==>
                Reactors(t.rows, Slot(message, g.emoji)) != {} && g.count == |Reactors(t.rows, Slot(message, g.emoji))|
    {
      var at := Slot(message, g.emoji);
      assert CountedAt(t, at);
      if g in GroupSet(t.counters, message) {
        var other :| other in t.counters && other.message == message && t.counters[other] > 0 && g == Group(other.emoji, t.counters[other]);
        assert other == at;
      }
      if Reactors(t.rows, at) != {} {
        assert t.counters[at] > 0;
      }
    }
  }

  /** Who reacted. */
  lemma ReactorsMeans(rows: set<Row>, at: Slot, user: int)
    ensures user in Reactors(rows, at) <==> Row(at.message, user, at.emoji) in rows
  {
  }

  datatype CounterRow = CounterRow(message: nat, group: Group)

  /** ORDER BY message, count DESC, emoji ASC. */
  predicate RowBefore(a: CounterRow, b: CounterRow) {
    a.message < b.message || (a.message == b.message && Before(a.group, b.group))
  }

  function CounterRows(counters: map<Slot, int>, ids: set<nat>): set<CounterRow> {
    set at | at in counters && at.message in ids && counters[at] > 0 :: CounterRow(at.message, Group(at.emoji, counters[at]))
  }

  /** The answer of the batch query over all the messages. */
  ghost predicate IsBatchAnswer(counters: map<Slot, int>, ids: set<nat>, answer: seq<CounterRow>) {
    Lists(RowBefore, answer, CounterRows(counters, ids))
  }

  datatype ReactionState = ReactionState(groups: seq<Group>, myEmojis: set<nat>)

  /** What the batch read has to return for the messages in `ids`: an entry for
      each message with a positive counter, with the groups `get_current_groups`
      gives and the emojis `list_user_emojis` gives. */
  ghost predicate IsBatchState(t: Tables, ids: set<nat>, user: int, state: map<nat, ReactionState>) {
    && (forall m :: m in state <==> m in ids && GroupSet(t.counters, m) != {})
    && (forall m <- state :: IsCurrentGroups(t.counters, m, state[m].groups))
    && (forall m <- state :: state[m].myEmojis == UserEmojis(t.rows, m, user))
  }

  /** The groups of one message within a batch answer. */
  function Pick(answer: seq<CounterRow>, m: nat): (groups: seq<Group>)
    ensures forall g :: g in groups <==> CounterRow(m, g) in answer
  {
    if answer == [] then []
    else
      var last := answer[|answer| - 1];
      Pick(answer[..|answer| - 1], m) + (if last.message == m then [last.group] else [])
  }

  lemma {:induction false} PickAscending(answer: seq<CounterRow>, m: nat)
    requires Ascending(RowBefore, answer)
    ensures Ascending(Before, Pick(answer, m))
  {
    if answer != [] {
      var init, last := answer[..|answer| - 1], answer[|answer| - 1];
      PickAscending(init, m);
      forall g <- Pick(init, m) | last.message == m ensures Before(g, last.group) {
        var i :| 0 <= i < |init| && init[i] == CounterRow(m, g);
        assert RowBefore(answer[i], last);
      }
    }
  }

  lemma BatchHolds(counters: map<Slot, int>, ids: set<nat>, m: nat)
    requires m in ids
    ensures forall g :: g in GroupSet(counters, m) <==> CounterRow(m, g) in CounterRows(counters, ids)
  {
    forall g | g in GroupSet(counters, m) ensures CounterRow(m, g) in CounterRows(counters, ids) {
      var at :| at in counters && at.message == m && counters[at] > 0 && g == Group(at.emoji, counters[at]);
      assert at.message in ids;
    }
  }

  method GetReactionStateForMessages(t: Tables, messages: seq<nat>, user: int, answer: seq<CounterRow>)
    returns (state: map<nat, ReactionState>)
    requires IsBatchAnswer(t.counters, Members(messages), answer)
    ensures IsBatchState(t, Members(messages), user, state)
  {
    state := map[];
    for i := 0 to |answer|
      invariant forall m :: m in state <==> Pick(answer[..i], m) != []
      invariant forall m <- state :: state[m] == ReactionState(Pick(answer[..i], m), {})
    {
      assert answer[..i + 1][..i] == answer[..i];
      var row := answer[i];
      var groups := if row.message in state then state[row.message].groups else [];
      state := state[row.message := ReactionState(groups + [row.group], {})];
    }
    assert answer[..|answer|] == answer;
    forall m ensures m in state <==> m in messages && GroupSet(t.counters, m) != {}
             ensures m in state ==> IsCurrentGroups(t.counters, m, Pick(answer, m)) {
      PickAscending(answer, m);
      var groups := Pick(answer, m);
      NonEmpty(groups);
      if m in messages {
        BatchHolds(t.counters, Members(messages), m);
        assert forall g :: g in groups <==> g in GroupSet(t.counters, m);
      } else {
        assert forall g :: CounterRow(m, g) !in answer;
      }
    }
    state := map m | m in state :: state[m].(myEmojis := UserEmojis(t.rows, m, user));
  }
}
