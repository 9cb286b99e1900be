/** The Postgres side of read receipts: the cursor table, the marks table and
    the event outbox, and the flush that writes a claimed batch to all three. */
module ReadStore {
  import opened Options
  import opened ReadQueue

  datatype Mark = Mark(key: Key, msgSeq: int, at: int)

  datatype ReadEvent = ReadEvent(key: Key, msgSeq: int)

  /** Marks and events are kept in the order in which they were written. */
  datatype Tables = Tables(receipts: map<Key, int>, marks: seq<Mark>, outbox: seq<ReadEvent>)

  predicate Advances(receipts: map<Key, int>, k: Key, msgSeq: int) {
    k !in receipts || receipts[k] < msgSeq
  }

  /** The single-row upsert "strictly greater wins". */
  function MarkRead(receipts: map<Key, int>, k: Key, msgSeq: int): map<Key, int> {
    if Advances(receipts, k, msgSeq) then receipts[k := msgSeq] else receipts
  }

  /** INSERT .. ON CONFLICT (chat, user, seq) DO NOTHING. */
  function AddMark(marks: seq<Mark>, m: Mark): seq<Mark> {
    if exists i :: 0 <= i < |marks| && marks[i].key == m.key && marks[i].msgSeq == m.msgSeq
    then marks
    else marks + [m]
  }

  /** What writing one cursor means: nothing unless the stored cursor advances. */
  function FlushOne(t: Tables, c: Cursor): Tables {
    if Advances(t.receipts, c.key, c.payload.msgSeq) then
      Tables(t.receipts[c.key := c.payload.msgSeq],
             if c.payload.marks then AddMark(t.marks, Mark(c.key, c.payload.msgSeq, c.payload.at)) else t.marks,
             if c.payload.readEvent then t.outbox + [ReadEvent(c.key, c.payload.msgSeq)] else t.outbox)
    else
      t
  }

  /** Cursor by cursor: the simple form that the three-phase flush refines. */
  function Flushed(t: Tables, batch: seq<Cursor>): Tables {
    if batch == [] then t
    else FlushOne(Flushed(t, batch[..|batch| - 1]), batch[|batch| - 1])
  }

  lemma FlushedOneMore(t: Tables, batch: seq<Cursor>, c: Cursor)
    ensures Flushed(t, batch + [c]) == FlushOne(Flushed(t, batch), c)
  {
    assert (batch + [c])[..|batch|] == batch;
  }

  /** Each cursor of a batch decided against `before`, every other key left alone. */
  ghost predicate DecidedAgainst(before: map<Key, int>, batch: seq<Cursor>, after: map<Key, int>) {
    && (forall k :: k in after <==> k in before || HasKey(batch, k))
    && (forall k <- before :: !HasKey(batch, k) ==> after[k] == before[k])
    && (forall c <- batch :: c.key in after && after[c.key] ==
          if Advances(before, c.key, c.payload.msgSeq) then c.payload.msgSeq else before[c.key])
  }

  predicate HasKey(batch: seq<Cursor>, k: Key) {
    exists c <- batch :: c.key == k
  }

  lemma DecidedOneMore(before: map<Key, int>, batch: seq<Cursor>, mid: Tables, c: Cursor)
    requires DecidedAgainst(before, batch, mid.receipts) && !HasKey(batch, c.key)
    ensures DecidedAgainst(before, batch + [c], FlushOne(mid, c).receipts)
  {
    forall k ensures HasKey(batch + [c], k) <==> HasKey(batch, k) || c.key == k {
      if d :| d in batch && d.key == k { assert d in batch + [c]; }
      assert c in batch + [c];
    }
    assert c.key in mid.receipts <==> c.key in before;
  }

  lemma {:induction false} FlushedReceipts(t: Tables, batch: seq<Cursor>)
    requires DistinctKeys(batch)
    ensures DecidedAgainst(t.receipts, batch, Flushed(t, batch).receipts)
  {
    if batch != [] {
      var init, c := batch[..|batch| - 1], batch[|batch| - 1];
      FlushedReceipts(t, init);
      assert batch == init + [c];
      assert forall d <- init :: d.key != c.key;
      DecidedOneMore(t.receipts, init, Flushed(t, init), c);
    }
  }

  /** A cursor whose key is not in the batch fares the same before and after it. */
  lemma StillAdvances(t: Tables, batch: seq<Cursor>, c: Cursor)
    requires DistinctKeys(batch + [c])
    ensures Advances(Flushed(t, batch).receipts, c.key, c.payload.msgSeq)
       <==> Advances(t.receipts, c.key, c.payload.msgSeq)
  {
    var all := batch + [c];
    assert all[|batch|] == c && forall i | 0 <= i < |batch| :: all[i] == batch[i];
    assert DistinctKeys(batch);
    FlushedReceipts(t, batch);
    assert !HasKey(batch, c.key);
  }

  class ReadReceiptRepository {
    var receipts: map<Key, int>
    var marks: seq<Mark>

    constructor ()
      ensures receipts == map[] && marks == []
    {
      receipts, marks := map[], [];
    }

    /** The multi-row upsert.  Postgres refuses a statement that would touch the
        same row twice, so keys must be distinct. */
    method MarkReadMany(batch: seq<Cursor>) returns (advanced: set<Key>)
      requires DistinctKeys(batch)
      modifies this`receipts
      ensures forall ms, ob :: receipts == Flushed(Tables(old(receipts), ms, ob), batch).receipts
      ensures advanced == set c | c in batch && Advances(old(receipts), c.key, c.payload.msgSeq) :: c.key
    {
      advanced := {};
      ghost var before := receipts;
      for i := 0 to |batch|
        invariant forall ms, ob :: receipts == Flushed(Tables(before, ms, ob), batch[..i]).receipts
        invariant advanced == set c | c in batch[..i] && Advances(before, c.key, c.payload.msgSeq) :: c.key
      {
        var c := batch[i];
        assert batch[..i + 1] == batch[..i] + [c];
        StillAdvances(Tables(before, [], []), batch[..i], c);
        forall ms, ob {
          FlushedOneMore(Tables(before, ms, ob), batch[..i], c);
        }
        assert Advances(receipts, c.key, c.payload.msgSeq) <==> Advances(before, c.key, c.payload.msgSeq);
        if c.key !in receipts || receipts[c.key] < c.payload.msgSeq {
          receipts := receipts[c.key := c.payload.msgSeq];
          advanced := advanced + {c.key};
        }
      }
      assert batch[..|batch|] == batch;
    }

    method AddMarks(rows: seq<Mark>)
      modifies this`marks
      ensures marks == MarksAdded(old(marks), rows)
    {
      for i := 0 to |rows|
        invariant marks == MarksAdded(old(marks), rows[..i])
      {
        assert rows[..i + 1][..i] == rows[..i];
        if forall j :: 0 <= j < |marks| ==> marks[j].key != rows[i].key || marks[j].msgSeq != rows[i].msgSeq {
          marks := marks + [rows[i]];
        }
      }
      assert rows[..|rows|] == rows;
    }

    /** The lateral subquery: the mark of `key` with the lowest seq that covers the message. */
    method FirstMark(key: Key, msgSeq: int) returns (r: Option<Mark>)
      ensures IsFirstMark(marks, key, msgSeq, r)
    {
      r := None;
      for i := 0 to |marks|
        invariant IsFirstMark(marks[..i], key, msgSeq, r)
      {
        assert marks[..i + 1] == marks[..i] + [marks[i]];
        if marks[i].key == key && marks[i].msgSeq >= msgSeq && (r == None || marks[i].msgSeq < r.value.msgSeq) {
          r := Some(marks[i]);
        }
      }
      assert marks[..|marks|] == marks;
    }

    /** One batch of the age-based cleanup; which expired rows the batch picks is
        up to the database. */
    method CleanupMarksOlderThan(threshold: int, batchSize: nat, picked: set<Mark>) returns (deleted: nat)
      requires |picked| <= batchSize && forall m <- picked :: m in marks && m.at < threshold
      modifies this`marks
      ensures marks == Kept(old(marks), picked)
      ensures deleted == |old(marks)| - |marks|
    {
      deleted := 0;
      var kept := [];
      for i := 0 to |marks|
        invariant kept == Kept(marks[..i], picked) && deleted + |kept| == i
      {
        assert marks[..i + 1][..i] == marks[..i];
        if marks[i] in picked {
          deleted := deleted + 1;
        } else {
          kept := kept + [marks[i]];
        }
      }
      assert marks[..|marks|] == marks;
      marks := kept;
    }
  }

  function MarksAdded(marks: seq<Mark>, rows: seq<Mark>): seq<Mark> {
    if rows == [] then marks
    else AddMark(MarksAdded(marks, rows[..|rows| - 1]), rows[|rows| - 1])
  }

  function Kept(marks: seq<Mark>, picked: set<Mark>): seq<Mark> {
    if marks == [] then []
    else
      var init, m := marks[..|marks| - 1], marks[|marks| - 1];
      if m in picked then Kept(init, picked) else Kept(init, picked) + [m]
  }

  ghost predicate IsFirstMark(marks: seq<Mark>, key: Key, msgSeq: int, r: Option<Mark>) {
    match r
    case None => forall m <- marks :: m.key == key ==> m.msgSeq < msgSeq
    case Some(first) =>
      && first in marks && first.key == key && first.msgSeq >= msgSeq
      && forall m <- marks :: m.key == key && m.msgSeq >= msgSeq ==> first.msgSeq <= m.msgSeq
  }

  /** The rows handed to `add_marks`, and the events published, for a batch whose
      advanced keys are known. */
  function MarkRows(batch: seq<Cursor>, advanced: set<Key>): seq<Mark> {
    if batch == [] then []
    else
      var init, c := batch[..|batch| - 1], batch[|batch| - 1];
      MarkRows(init, advanced)
      + if c.payload.marks && c.key in advanced then [Mark(c.key, c.payload.msgSeq, c.payload.at)] else []
  }

  function EventRows(batch: seq<Cursor>, advanced: set<Key>): seq<ReadEvent> {
    if batch == [] then []
    else
      var init, c := batch[..|batch| - 1], batch[|batch| - 1];
      EventRows(init, advanced)
      + if c.payload.readEvent && c.key in advanced then [ReadEvent(c.key, c.payload.msgSeq)] else []
  }

  lemma {:induction false} MarksAddedConcat(marks: seq<Mark>, rows: seq<Mark>, m: Mark)
    ensures MarksAdded(marks, rows + [m]) == AddMark(MarksAdded(marks, rows), m)
  {
    assert (rows + [m])[..|rows|] == rows;
  }

  ghost predicate AdvancedIn(receipts: map<Key, int>, batch: seq<Cursor>, advanced: set<Key>) {
    forall c <- batch :: c.key in advanced <==> Advances(receipts, c.key, c.payload.msgSeq)
  }

  lemma RowsOneMore(batch: seq<Cursor>, c: Cursor, advanced: set<Key>)
    ensures MarkRows(batch + [c], advanced) == MarkRows(batch, advanced)
      + if c.payload.marks && c.key in advanced then [Mark(c.key, c.payload.msgSeq, c.payload.at)] else []
    ensures EventRows(batch + [c], advanced) == EventRows(batch, advanced)
      + if c.payload.readEvent && c.key in advanced then [ReadEvent(c.key, c.payload.msgSeq)] else []
  {
    assert (batch + [c])[..|batch|] == batch;
  }

  lemma PhasesStep(t: Tables, batch: seq<Cursor>, c: Cursor, advanced: set<Key>)
    requires Flushed(t, batch).marks == MarksAdded(t.marks, MarkRows(batch, advanced))
    requires Flushed(t, batch).outbox == t.outbox + EventRows(batch, advanced)
    requires Advances(Flushed(t, batch).receipts, c.key, c.payload.msgSeq) <==> c.key in advanced
    ensures Flushed(t, batch + [c]).marks == MarksAdded(t.marks, MarkRows(batch + [c], advanced))
    ensures Flushed(t, batch + [c]).outbox == t.outbox + EventRows(batch + [c], advanced)
  {
    FlushedOneMore(t, batch, c);
    RowsOneMore(batch, c, advanced);
    var advances := c.key in advanced;
    MarksStep(t.marks, MarkRows(batch, advanced), Mark(c.key, c.payload.msgSeq, c.payload.at), c.payload.marks && advances);
    EventsStep(t.outbox, EventRows(batch, advanced), ReadEvent(c.key, c.payload.msgSeq), c.payload.readEvent && advances);
  }

  lemma MarksStep(marks: seq<Mark>, rows: seq<Mark>, m: Mark, add: bool)
    ensures MarksAdded(marks, rows + if add then [m] else []) ==
      if add then AddMark(MarksAdded(marks, rows), m) else MarksAdded(marks, rows)
  {
    if add {
      MarksAddedConcat(marks, rows, m);
    } else {
      assert rows + [] == rows;
    }
  }

  lemma EventsStep(outbox: seq<ReadEvent>, events: seq<ReadEvent>, e: ReadEvent, add: bool)
    ensures outbox + (events + if add then [e] else []) == if add then (outbox + events) + [e] else outbox + events
  {
  }

  /** Three passes over the whole batch equal one pass cursor by cursor. */
  lemma {:induction false} PhasesAgree(t: Tables, batch: seq<Cursor>, advanced: set<Key>)
    requires DistinctKeys(batch) && AdvancedIn(t.receipts, batch, advanced)
    ensures Flushed(t, batch).marks == MarksAdded(t.marks, MarkRows(batch, advanced))
    ensures Flushed(t, batch).outbox == t.outbox + EventRows(batch, advanced)
  {
    if batch != [] {
      var init, c := batch[..|batch| - 1], batch[|batch| - 1];
      assert batch == init + [c];
      PhasesAgree(t, init, advanced);
      StillAdvances(t, init, c);
      PhasesStep(t, init, c, advanced);
    }
  }

  class ReadReceiptFlusher {
    const repository: ReadReceiptRepository
    var outbox: seq<ReadEvent>

    constructor (repository: ReadReceiptRepository)
      ensures this.repository == repository && outbox == []
    {
      this.repository := repository;
      outbox := [];
    }

    ghost function View(): Tables
      reads this, repository
    {
      Tables(repository.receipts, repository.marks, outbox)
    }

    method Flush(batch: seq<Cursor>) returns (count: nat)
      requires DistinctKeys(batch)
      modifies this`outbox, repository
      ensures View() == Flushed(old(View()), batch)
      ensures count == |set c | c in batch && Advances(old(repository.receipts), c.key, c.payload.msgSeq) :: c.key|
    {
      if batch == [] {
        return 0;
      }
      ghost var t := View();
      var advanced := repository.MarkReadMany(batch);
      assert AdvancedIn(t.receipts, batch, advanced) by {
        forall c <- batch | c.key in advanced
          ensures Advances(t.receipts, c.key, c.payload.msgSeq)
        {
          var d :| d in batch && Advances(t.receipts, d.key, d.payload.msgSeq) && d.key == c.key;
        }
      }
      PhasesAgree(t, batch, advanced);

      var rows, events := Rows(batch, advanced);
      repository.AddMarks(rows);
      if events != [] {
        outbox := outbox + events;
      }
      count := |advanced|;
    }

    method Rows(batch: seq<Cursor>, advanced: set<Key>) returns (rows: seq<Mark>, events: seq<ReadEvent>)
      ensures rows == MarkRows(batch, advanced) && events == EventRows(batch, advanced)
    {
      rows, events := [], [];
      for i := 0 to |batch|
        invariant rows == MarkRows(batch[..i], advanced)
        invariant events == EventRows(batch[..i], advanced)
      {
        var c := batch[i];
        assert batch[..i + 1] == batch[..i] + [c];
        RowsOneMore(batch[..i], c, advanced);
        if c.payload.marks && c.key in advanced {
          rows := rows + [Mark(c.key, c.payload.msgSeq, c.payload.at)];
        }
        if c.payload.readEvent && c.key in advanced {
          events := events + [ReadEvent(c.key, c.payload.msgSeq)];
        }
      }
      assert batch[..|batch|] == batch;
    }
  }
}
