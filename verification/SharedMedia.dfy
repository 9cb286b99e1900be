/** Pages of a chat's shared media: the newest attachments of each type are
    fetched separately, merged, sorted and cut. */
module SharedMedia {
  import opened Options
  import opened Ordering
  import opened AttachmentTypes

  datatype Attachment = Attachment(chat: nat, kind: Kind, messageSeq: Option<int>, status: Status, messageDeleted: bool)

  /** The attachment table, by id. */
  type Table = map<nat, Attachment>

  datatype Key = Key(messageSeq: int, id: nat)

  predicate Newer(a: Key, b: Key) {
    a.messageSeq > b.messageSeq || (a.messageSeq == b.messageSeq && a.id > b.id)
  }

  predicate Matches(a: Attachment, chat: nat, kinds: set<Kind>) {
    a.chat == chat && a.kind in kinds && a.messageSeq.Some? && a.status.Success? && !a.messageDeleted
  }

  function Matching(t: Table, chat: nat, kinds: set<Kind>, before: Option<Key>): set<Key> {
    set id | id in t && Matches(t[id], chat, kinds)
             && (before.Some? ==> Newer(before.value, Key(t[id].messageSeq.value, id))) :: Key(t[id].messageSeq.value, id)
  }

  /** The newest `limit` of `items`, newest first. */
  ghost predicate IsTop(items: set<Key>, limit: nat, top: seq<Key>) {
    && Ascending(Newer, top)
    && (forall x <- top :: x in items)
    && |top| == (if |items| < limit then |items| else limit)
    && (forall x <- items, y <- top :: x !in top ==> Newer(y, x))
  }

  method TopOf(items: set<Key>, limit: nat) returns (top: seq<Key>)
    ensures IsTop(items, limit, top)
  {
    var sorted := Sorted(items, Newer);
    ListCount(Newer, sorted, items);
    top := if |sorted| < limit then sorted else sorted[..limit];
    forall x <- items, y <- top | x !in top ensures Newer(y, x) {
      var i :| 0 <= i < |sorted| && sorted[i] == x;
      var j :| 0 <= j < |top| && top[j] == y;
    }
  }

  /** `rows` may stand for `items` when only the newest `limit` matter: what it
      leaves out is behind `limit` of its rows. */
  ghost predicate Represents(rows: set<Key>, items: set<Key>, limit: nat) {
    && rows <= items
    && forall x <- items :: x !in rows ==> Behind(rows, limit, x)
  }

  ghost predicate Behind(rows: set<Key>, limit: nat, x: Key) {
    exists ahead: set<Key> :: ahead <= rows && |ahead| == limit && AllNewer(ahead, x)
  }

  predicate AllNewer(ks: set<Key>, x: Key) {
    forall y <- ks :: Newer(y, x)
  }

  lemma BehindMore(rows: set<Key>, more: set<Key>, limit: nat, x: Key)
    requires Behind(rows, limit, x)
    ensures Behind(rows + more, limit, x)
  {
    var ahead: set<Key> :| ahead <= rows && |ahead| == limit && AllNewer(ahead, x);
    assert ahead <= rows + more;
  }

  lemma TopRepresents(items: set<Key>, limit: nat, top: seq<Key>)
    requires IsTop(items, limit, top)
    ensures Represents(Members(top), items, limit)
  {
    DistinctCount(top);
    forall x <- items | x !in top ensures Behind(Members(top), limit, x) {
      if |top| < limit {
        SubsetCount(Members(top), items);
      }
      assert AllNewer(Members(top), x);
    }
  }

  lemma RepresentsUnion(rows: set<Key>, items: set<Key>, rows': set<Key>, items': set<Key>, limit: nat)
    requires Represents(rows, items, limit) && Represents(rows', items', limit)
    ensures Represents(rows + rows', items + items', limit)
  {
    forall x <- items + items' | x !in rows + rows' ensures Behind(rows + rows', limit, x) {
      if x in items {
        BehindMore(rows, rows', limit, x);
      } else {
        BehindMore(rows', rows, limit, x);
        assert rows' + rows == rows + rows';
      }
    }
  }

  /** The newest of the representatives are the newest of all. */
  lemma TopOfRepresentatives(rows: set<Key>, items: set<Key>, limit: nat, top: seq<Key>)
    requires Represents(rows, items, limit) && IsTop(rows, limit, top)
    ensures IsTop(items, limit, top)
  {
    DistinctCount(top);
    assert |items - rows| == |items| - |rows|;
    if x :| x in items && x !in rows {
      var ahead: set<Key> :| ahead <= rows && |ahead| == limit && AllNewer(ahead, x);
      assert |rows - ahead| == |rows| - |ahead|;
    } else {
      assert items == rows;
    }
    forall x <- items, y <- top | x !in top ensures Newer(y, x) {
      if x !in rows {
        AheadOfLeftOut(rows, limit, top, x, y);
      }
    }
  }

  lemma AheadOfLeftOut(rows: set<Key>, limit: nat, top: seq<Key>, x: Key, y: Key)
    requires IsTop(rows, limit, top) && Behind(rows, limit, x) && y in top && x !in rows
    ensures Newer(y, x)
  {
    DistinctCount(top);
    var ahead: set<Key> :| ahead <= rows && |ahead| == limit && AllNewer(ahead, x);
    if y !in ahead {
      if ahead <= Members(top) {
        SubsetCount(ahead, Members(top));
        assert false;
      }
      var z :| z in ahead && z !in Members(top);
      assert Newer(y, z) && Newer(z, x);
    }
  }

  function KindSet(types: seq<Kind>): set<Kind> {
    set k | k in types
  }

  /** What matches: processed attachments of one of the types, bound to a message
      of the chat that is not deleted, and older than the cursor. */
  lemma MatchingMeans(t: Table, chat: nat, types: seq<Kind>, before: Option<Key>, k: Key)
    ensures k in Matching(t, chat, KindSet(types), before) <==>
      && k.id in t && t[k.id].chat == chat && t[k.id].kind in types && t[k.id].messageSeq == Some(k.messageSeq)
      && t[k.id].status == Success && !t[k.id].messageDeleted
      && (before.Some? ==> k.messageSeq < before.value.messageSeq
                           || (k.messageSeq == before.value.messageSeq && k.id < before.value.id))
  {
  }

  lemma MatchingUnion(t: Table, chat: nat, kinds: set<Kind>, kind: Kind, before: Option<Key>)
    ensures Matching(t, chat, kinds + {kind}, before) == Matching(t, chat, kinds, before) + Matching(t, chat, {kind}, before)
  {
  }

  lemma KindSetNext(types: seq<Kind>, i: nat)
    requires i < |types|
    ensures KindSet(types[..i + 1]) == KindSet(types[..i]) + {types[i]}
    ensures types[i] in types[..i] <==> types[i] in KindSet(types[..i])
    ensures types[..|types|] == types
  {
    assert types[..i + 1] == types[..i] + [types[i]];
  }

  lemma KindMerged(t: Table, chat: nat, done: set<Kind>, kind: Kind, before: Option<Key>, limit: nat, rows: seq<Key>, top: seq<Key>)
    requires Represents(Members(rows), Matching(t, chat, done, before), limit)
    requires IsTop(Matching(t, chat, {kind}, before), limit, top)
    ensures Represents(Members(rows + top), Matching(t, chat, done + {kind}, before), limit)
  {
    var items := Matching(t, chat, {kind}, before);
    TopRepresents(items, limit, top);
    RepresentsUnion(Members(rows), Matching(t, chat, done, before), Members(top), items, limit);
    MatchingUnion(t, chat, done, kind, before);
    assert Members(rows + top) == Members(rows) + Members(top);
  }

  /** The newest `limit` rows of each type, types without repetition. */
  method RowsPerType(t: Table, chat: nat, types: seq<Kind>, limit: nat, before: Option<Key>) returns (rows: seq<Key>)
    ensures Represents(Members(rows), Matching(t, chat, KindSet(types), before), limit)
  {
    rows := [];
    for i := 0 to |types|
      invariant Represents(Members(rows), Matching(t, chat, KindSet(types[..i]), before), limit)
    {
      KindSetNext(types, i);
      if types[i] in types[..i] {
        assert KindSet(types[..i + 1]) == KindSet(types[..i]);
      } else {
        var top := TopOf(Matching(t, chat, {types[i]}, before), limit);
        KindMerged(t, chat, KindSet(types[..i]), types[i], before, limit, rows, top);
        rows := rows + top;
      }
    }
    assert types[..|types|] == types;
  }

  /** For any list of types, with repetitions or not, the page is the newest
      `limit` of everything that matches. */
  method GetSharedMediaPage(t: Table, chat: nat, types: seq<Kind>, limit: nat, before: Option<Key>) returns (page: seq<Key>)
    ensures IsTop(Matching(t, chat, KindSet(types), before), limit, page)
  {
    var rows := RowsPerType(t, chat, types, limit, before);
    page := TopOf(Members(rows), limit);
    TopOfRepresentatives(Members(rows), Matching(t, chat, KindSet(types), before), limit, page);
  }

  /** One answer of the query handler: it fetches one row more than it returns. */
  method Handle(t: Table, chat: nat, types: seq<Kind>, limit: nat, cursor: Option<Key>)
    returns (items: seq<Key>, next: Option<Key>)
    requires limit > 0
    ensures IsTop(Matching(t, chat, KindSet(types), cursor), limit, items)
    ensures next.Some? <==> |Matching(t, chat, KindSet(types), cursor)| > limit
    ensures next.Some? ==> |items| == limit && next.value == items[limit - 1]
  {
    var rows := GetSharedMediaPage(t, chat, types, limit + 1, cursor);
    items := if |rows| > limit then rows[..limit] else rows;
    next := if |rows| > limit then Some(items[limit - 1]) else None;
    forall x <- Matching(t, chat, KindSet(types), cursor), y <- items | x !in items ensures Newer(y, x) {
      if x in rows {
        var i :| 0 <= i < |rows| && rows[i] == x;
        var j :| 0 <= j < |items| && items[j] == y;
      } else {
        assert y in rows;
      }
    }
  }

  lemma RestAfterPage(t: Table, chat: nat, kinds: set<Kind>, cursor: Option<Key>, limit: nat, items: seq<Key>)
    requires IsTop(Matching(t, chat, kinds, cursor), limit, items) && items != []
    ensures Matching(t, chat, kinds, Some(items[|items| - 1])) == Matching(t, chat, kinds, cursor) - Members(items)
  {
    var last := items[|items| - 1];
    assert last in items;
    forall x ensures x in Matching(t, chat, kinds, Some(last)) <==> x in Matching(t, chat, kinds, cursor) - Members(items) {
      if x in items {
        var i :| 0 <= i < |items| && items[i] == x;
      }
    }
  }

  /** `all` was yielded so far and `rest` is still to come. */
  ghost predicate Progress(all: seq<Key>, rest: set<Key>, total: set<Key>) {
    && Ascending(Newer, all)
    && (forall x :: x in all || x in rest <==> x in total)
    && (forall x <- all, y <- rest :: Newer(x, y))
  }

  lemma ProgressPage(all: seq<Key>, rest: set<Key>, total: set<Key>, limit: nat, items: seq<Key>)
    requires Progress(all, rest, total) && IsTop(rest, limit, items)
    ensures Progress(all + items, rest - Members(items), total)
    ensures |rest - Members(items)| == |rest| - |items|
  {
    DistinctCount(items);
    assert Members(items) <= rest;
    assert forall i | 0 <= i < |all| :: all[i] in all;
    assert forall j | 0 <= j < |items| :: items[j] in items && items[j] in rest;
    forall x <- all + items, y <- rest - Members(items) ensures Newer(x, y) {
      assert x in all || x in items;
    }
  }

  /** What is still to come once the cursor is known: nothing when there is none. */
  ghost function Rest(t: Table, chat: nat, kinds: set<Kind>, more: bool, cursor: Option<Key>): set<Key> {
    if more then Matching(t, chat, kinds, cursor) else {}
  }

  method NextPage(t: Table, chat: nat, types: seq<Kind>, limit: nat, cursor: Option<Key>, ghost all: seq<Key>, ghost total: set<Key>)
    returns (items: seq<Key>, next: Option<Key>)
    requires limit > 0 && Progress(all, Matching(t, chat, KindSet(types), cursor), total)
    ensures Progress(all + items, Rest(t, chat, KindSet(types), next.Some?, next), total)
    ensures next.Some? ==> |Matching(t, chat, KindSet(types), next)| < |Matching(t, chat, KindSet(types), cursor)|
  {
    ghost var rest := Matching(t, chat, KindSet(types), cursor);
    items, next := Handle(t, chat, types, limit, cursor);
    ProgressPage(all, rest, total, limit, items);
    assert Rest(t, chat, KindSet(types), next.Some?, next) == rest - Members(items) by {
      if next.Some? {
        RestAfterPage(t, chat, KindSet(types), cursor, limit, items);
      } else {
        LastPage(rest, limit, items);
      }
    }
  }

  lemma LastPage(rest: set<Key>, limit: nat, items: seq<Key>)
    requires IsTop(rest, limit, items) && |rest| <= limit
    ensures rest - Members(items) == {}
  {
    DistinctCount(items);
    SubsetCount(Members(items), rest);
  }

  /** Feeding each cursor back until there is none yields everything that
      matches, newest first, without gap or repeat. */
  method WalkPages(t: Table, chat: nat, types: seq<Kind>, limit: nat) returns (all: seq<Key>)
    requires limit > 0
    ensures Lists(Newer, all, Matching(t, chat, KindSet(types), None))
    ensures forall k: Key :: k in all <==>
              k.id in t && t[k.id].chat == chat && t[k.id].kind in types && t[k.id].messageSeq == Some(k.messageSeq)
              && t[k.id].status == Success && !t[k.id].messageDeleted
    ensures forall i, j :: 0 <= i < j < |all| ==>
              all[i].messageSeq > all[j].messageSeq || (all[i].messageSeq == all[j].messageSeq && all[i].id > all[j].id)
  {
    all := [];
    var cursor: Option<Key> := None;
    var more := true;
    ghost var kinds, total := KindSet(types), Matching(t, chat, KindSet(types), None);
    while more
      invariant Progress(all, Rest(t, chat, kinds, more, cursor), total)
      decreases more, |Matching(t, chat, kinds, cursor)|
    {
      var items, next := NextPage(t, chat, types, limit, cursor, all, total);
      all := all + items;
      cursor := next;
      more := next.Some?;
    }
    forall k: Key {
      MatchingMeans(t, chat, types, None, k);
    }
    assert forall i, j | 0 <= i < j < |all| :: Newer(all[i], all[j]);
  }
}
