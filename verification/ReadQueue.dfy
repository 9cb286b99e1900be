/** The window in which read cursors wait to be flushed: a Redis hash `pending`
    with one payload per (chat, user), and a sorted set `due` with the deadline
    of every field of that hash.  One function per Lua script. */
module ReadQueue {
  import opened Ordering

  const WINDOW_MS := 500

  datatype Key = Key(chat: nat, user: int)

  datatype Payload = Payload(msgSeq: int, readEvent: bool, marks: bool, at: int)

  datatype Cursor = Cursor(key: Key, payload: Payload)

  datatype Window = Window(pending: map<Key, Payload>, due: map<Key, int>)

  const EMPTY_WINDOW := Window(map[], map[])

  predicate Consistent(w: Window) {
    w.pending.Keys == w.due.Keys
  }

  predicate Accepts(w: Window, k: Key, msgSeq: int) {
    k !in w.pending || w.pending[k].msgSeq < msgSeq
  }

  /** The enqueue script: a cursor that is not ahead of the pending one is
      refused; an accepted one keeps the deadline its field already has. */
  function Enqueued(w: Window, k: Key, p: Payload): (r: Window)
    ensures Consistent(w) ==> Consistent(r)
    ensures k in r.pending && p.msgSeq <= r.pending[k].msgSeq
    ensures r.due.Keys >= w.due.Keys && forall f <- w.due :: r.due[f] == w.due[f]
  {
    if Accepts(w, k, p.msgSeq) then
      Window(w.pending[k := p], if k in w.due then w.due else w.due[k := p.at + WINDOW_MS])
    else
      w
  }

  /** A report that is not ahead of an earlier one of the same key leaves no
      trace, and the order of two reports does not matter for what is pending. */
  lemma ReportsCoalesce(w: Window, k: Key, p: Payload, q: Payload)
    ensures q.msgSeq <= p.msgSeq ==> Enqueued(Enqueued(w, k, p), k, q) == Enqueued(w, k, p)
    ensures Enqueued(Enqueued(w, k, p), k, q).pending[k].msgSeq == Enqueued(Enqueued(w, k, q), k, p).pending[k].msgSeq
  {
  }

  /** The answer of ZRANGEBYSCORE -inf now LIMIT 0 limit.  Fields with equal
      deadlines may come in any order. */
  ghost predicate IsDueRange(due: map<Key, int>, now: int, limit: nat, fields: seq<Key>) {
    var ripe := Ripe(due, now);
    && Distinct(fields)
    && (forall k <- fields :: k in ripe)
    && |fields| == (if |ripe| < limit then |ripe| else limit)
    && (forall k <- fields, r <- ripe :: r !in fields ==> due[k] <= due[r])
  }

  predicate Distinct(fields: seq<Key>) {
    forall i, j :: 0 <= i < j < |fields| ==> fields[i] != fields[j]
  }

  function Ripe(due: map<Key, int>, now: int): set<Key> {
    set k | k in due && due[k] <= now
  }

  function Drop(w: Window, fields: seq<Key>): Window {
    var gone := set k | k in fields;
    Window(w.pending - gone, w.due - gone)
  }

  lemma DropOneMore(w: Window, fields: seq<Key>, k: Key)
    ensures var d := Drop(w, fields);
            Drop(w, fields + [k]) == Window(d.pending - {k}, d.due - {k})
  {
    assert (set f | f in fields + [k]) == (set f | f in fields) + {k};
  }

  /** The payloads a claim hands out, in claim order; a field without payload is skipped. */
  function Claimed(pending: map<Key, Payload>, fields: seq<Key>): (cs: seq<Cursor>)
    ensures forall c <- cs :: c.key in fields && c.key in pending && c.payload == pending[c.key]
    ensures forall k <- fields :: k in pending ==> Cursor(k, pending[k]) in cs
  {
    if fields == [] then []
    else
      var init, k := fields[..|fields| - 1], fields[|fields| - 1];
      Claimed(pending, init) + (if k in pending then [Cursor(k, pending[k])] else [])
  }

  predicate DistinctKeys(batch: seq<Cursor>) {
    forall i, j :: 0 <= i < j < |batch| ==> batch[i].key != batch[j].key
  }

  /** One claim never carries two cursors for the same (chat, user), which is
      what the multi-row upsert behind it requires. */
  lemma {:induction false} ClaimedKeysDistinct(pending: map<Key, Payload>, fields: seq<Key>)
    requires Distinct(fields)
    ensures DistinctKeys(Claimed(pending, fields))
  {
    if fields != [] {
      ClaimedKeysDistinct(pending, fields[..|fields| - 1]);
    }
  }

  /** What `requeue` leaves behind: the cursors enqueued in turn, each stamped
      with the time of its own call. */
  function Requeued(w: Window, cursors: seq<Cursor>, times: seq<int>): Window
    requires |cursors| == |times|
  {
    if cursors == [] then w
    else
      var n := |cursors| - 1;
      Enqueued(Requeued(w, cursors[..n], times[..n]), cursors[n].key, cursors[n].payload.(at := times[n]))
  }

  lemma NothingLeft(due: map<Key, int>, now: int, limit: nat, fields: seq<Key>)
    requires IsDueRange(due, now, limit, fields)
    ensures forall k <- fields :: k in due && due[k] <= now
    ensures |fields| < limit ==> forall k <- due :: k in fields || due[k] > now
  {
    if |fields| < limit {
      DistinctCount(fields);
      SubsetCount(Members(fields), Ripe(due, now));
    }
  }

  class ReadReceiptCoalesceQueue {
    var pending: map<Key, Payload>
    var due: map<Key, int>

    ghost function View(): Window
      reads this
    {
      Window(pending, due)
    }

    constructor ()
      ensures View() == EMPTY_WINDOW
    {
      pending, due := map[], map[];
    }

    method Enqueue(k: Key, msgSeq: int, readEvent: bool, marks: bool, now: int) returns (accepted: bool)
      modifies this
      ensures accepted == old(Accepts(View(), k, msgSeq))
      ensures View() == Enqueued(old(View()), k, Payload(msgSeq, readEvent, marks, now))
    {
      if k in pending && pending[k].msgSeq >= msgSeq {
        return false;
      }
      pending := pending[k := Payload(msgSeq, readEvent, marks, now)];
      if k !in due {
        due := due[k := now + WINDOW_MS];
      }
      return true;
    }

    /** `fields` is the answer of the range query the script starts with. */
    method ClaimDue(now: int, limit: nat, fields: seq<Key>) returns (cursors: seq<Cursor>)
      requires IsDueRange(due, now, limit, fields)
      modifies this
      ensures View() == Drop(old(View()), fields)
      ensures cursors == Claimed(old(pending), fields) && DistinctKeys(cursors)
      ensures forall c <- cursors :: c.key in old(due) && old(due)[c.key] <= now
      ensures forall c :: c in cursors <==> c.key in fields && c.key in old(pending) && c.payload == old(pending)[c.key]
      ensures forall k :: k in pending <==> k in old(pending) && k !in fields
      ensures forall k <- pending :: pending[k] == old(pending)[k]
      ensures |fields| < limit ==> forall k <- due :: due[k] > now
    {
      cursors := [];
      ghost var w := View();
      assert Distinct(fields);
      for i := 0 to |fields|
        invariant View() == Drop(w, fields[..i])
        invariant cursors == Claimed(w.pending, fields[..i])
      {
        var field := fields[i];
        assert fields[..i + 1] == fields[..i] + [field];
        DropOneMore(w, fields[..i], field);
        assert field !in fields[..i];
        if field in pending {
          cursors := cursors + [Cursor(field, pending[field])];
        }
        due, pending := due - {field}, pending - {field};
      }
      assert fields[..|fields|] == fields;
      ClaimedKeysDistinct(old(pending), fields);
      NothingLeft(w.due, now, limit, fields);
    }

    method Requeue(cursors: seq<Cursor>, times: seq<int>)
      requires |cursors| == |times|
      modifies this
      ensures View() == Requeued(old(View()), cursors, times)
    {
      for i := 0 to |cursors|
        invariant View() == Requeued(old(View()), cursors[..i], times[..i])
      {
        var p := cursors[i].payload;
        var _ := Enqueue(cursors[i].key, p.msgSeq, p.readEvent, p.marks, times[i]);
        assert cursors[..i + 1][..i] == cursors[..i] && times[..i + 1][..i] == times[..i];
      }
      assert cursors[..|cursors|] == cursors && times[..|times|] == times;
    }
  }
}
