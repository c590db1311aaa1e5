/**
 * The deduplication store of src/database.py: one table of admitted events
 * whose primary key is (topic, event_id), an insert-or-reject operation and
 * an ordered scan that rebuilds events from the stored rows.
 */
module Store {
  import opened Events

  /**
   * A text column that holds an encoded value (JSON for the payload,
   * ISO-8601 for the timestamp): SQL NULL, the encoding of a value, or
   * text that does not decode. Encoding followed by decoding gives the
   * value back.
   */
  datatype Cell<T> = Null | Stored(value: T) | Unparsable(text: string)

  /**
   * One row of the processed_events table. topic and event_id are NOT NULL;
   * the other columns may be NULL (payload is NULL on rows written before
   * the column was added). The processed_at column is represented by the
   * row's position in the table.
   */
  datatype Row = Row(
    topic: string,
    eventId: string,
    timestamp: Cell<Timestamp>,
    source: Option<string>,
    payload: Cell<Payload>)
  {
    function Id(): Key { Key(topic, eventId) }
  }

  /** The row that an insert of e writes. */
  function EncodeRow(e: Event): Row
  {
    Row(e.topic, e.eventId, Stored(e.timestamp), Some(e.source), Stored(e.payload))
  }

  function EncodeAll(es: seq<Event>): (rows: seq<Row>)
    ensures |rows| == |es|
  {
    seq(|es|, i requires 0 <= i < |es| => EncodeRow(es[i]))
  }

  /** A NULL or empty cell reads as the default; otherwise the cell must decode. */
  function ReadCell<T>(c: Cell<T>, default: T): Option<T>
  {
    match c
    case Null => Some(default)
    case Stored(v) => Some(v)
    case Unparsable(text) => if text == "" then Some(default) else None
  }

  /**
   * Rebuilds the event of one row, or None when the row does not parse:
   * a payload or timestamp that does not decode, or a NULL source. A missing
   * payload becomes the empty map and a missing timestamp becomes `now`.
   */
  function DecodeRow(r: Row, now: Timestamp): (res: Option<Event>)
    ensures res.Some? <==>
      r.source.Some? && ReadCell(r.payload, map[]).Some? && ReadCell(r.timestamp, now).Some?
    ensures res.Some? ==> res.value.Id() == r.Id() && r.source == Some(res.value.source)
    ensures res.Some? && (r.payload.Null? || r.payload == Unparsable("")) ==> res.value.payload == map[]
    ensures res.Some? && r.payload.Stored? ==> res.value.payload == r.payload.value
    ensures res.Some? && r.timestamp.Stored? ==> res.value.timestamp == r.timestamp.value
    ensures res.Some? && (r.timestamp.Null? || r.timestamp == Unparsable("")) ==> res.value.timestamp == now
  {
    match ReadCell(r.payload, map[])
    case None => None
    case Some(payload) =>
      match ReadCell(r.timestamp, now)
      case None => None
      case Some(timestamp) =>
        match r.source
        case None => None
        case Some(source) => Some(Event(r.topic, r.eventId, timestamp, source, payload))
  }

  /** The events of the rows that parse, in table order; the others are skipped. */
  function DecodeAll(rows: seq<Row>, now: Timestamp): seq<Event>
  {
    if rows == [] then []
    else
      match DecodeRow(rows[0], now)
      case Some(e) => [e] + DecodeAll(rows[1..], now)
      case None => DecodeAll(rows[1..], now)
  }

  function KeysOf(rows: seq<Row>): set<Key>
  {
    set r | r in rows :: r.Id()
  }

  /** The primary-key constraint: no two rows share (topic, event_id). */
  ghost predicate KeysUnique(rows: seq<Row>)
  {
    forall i, j :: 0 <= i < j < |rows| ==> rows[i].Id() != rows[j].Id()
  }

  function RowIds(rows: seq<Row>): seq<Key>
  {
    seq(|rows|, i requires 0 <= i < |rows| => rows[i].Id())
  }

  function EventIds(es: seq<Event>): seq<Key>
  {
    seq(|es|, i requires 0 <= i < |es| => es[i].Id())
  }

  /** An event written by an insert loads back unchanged, whatever the clock says. */
  lemma RowRoundTrip(e: Event, now: Timestamp)
    ensures DecodeRow(EncodeRow(e), now) == Some(e)
  {
  }

  lemma KeysOfAppend(rows: seq<Row>, r: Row)
    ensures KeysOf(rows + [r]) == KeysOf(rows) + {r.Id()}
  {
    var all := rows + [r];
    forall k | k in KeysOf(all) ensures k in KeysOf(rows) + {r.Id()} {
      var x :| x in all && x.Id() == k;
      if x in rows { assert k in KeysOf(rows); }
    }
    assert r in all;
    forall k | k in KeysOf(rows) ensures k in KeysOf(all) {
      var x :| x in rows && x.Id() == k;
      assert x in all;
    }
  }

  /** Appending a row with a new key keeps the primary-key constraint. */
  lemma KeysUniqueAppend(rows: seq<Row>, r: Row)
    requires KeysUnique(rows) && r.Id() !in KeysOf(rows)
    ensures KeysUnique(rows + [r])
  {
    var all := rows + [r];
    forall i, j | 0 <= i < j < |all| ensures all[i].Id() != all[j].Id() {
      if j == |rows| {
        assert all[i] in rows;
      }
    }
  }

  /** Loading distributes over the concatenation of two blocks of rows. */
  lemma {:induction false} DecodeAllAppend(a: seq<Row>, b: seq<Row>, now: Timestamp)
    ensures DecodeAll(a + b, now) == DecodeAll(a, now) + DecodeAll(b, now)
  {
    if a != [] {
      assert (a + b)[1..] == a[1..] + b;
      DecodeAllAppend(a[1..], b, now);
    } else {
      assert a + b == b;
    }
  }

  /** Every event that inserts wrote comes back from a load, in insertion order. */
  lemma {:induction false} DecodeAllEncodeAll(es: seq<Event>, now: Timestamp)
    ensures DecodeAll(EncodeAll(es), now) == es
  {
    if es != [] {
      assert EncodeAll(es)[1..] == EncodeAll(es[1..]);
      RowRoundTrip(es[0], now);
      DecodeAllEncodeAll(es[1..], now);
    }
  }

  /** The loaded events keep the relative order of their rows. */
  lemma {:induction false} DecodeAllOrder(rows: seq<Row>, now: Timestamp)
    ensures IsSubseq(EventIds(DecodeAll(rows, now)), RowIds(rows))
  {
    if rows != [] {
      DecodeAllOrder(rows[1..], now);
      var rest := DecodeAll(rows[1..], now);
      assert RowIds(rows)[1..] == RowIds(rows[1..]);
      match DecodeRow(rows[0], now)
      case Some(e) =>
        assert EventIds([e] + rest)[1..] == EventIds(rest);
      case None =>
        SubseqOfTail(EventIds(rest), RowIds(rows));
    }
  }

  lemma SubseqOfTail<T>(a: seq<T>, b: seq<T>)
    requires b != [] && IsSubseq(a, b[1..])
    ensures IsSubseq(a, b)
  {
  }

  /** Every row that parses contributes its event; only bad rows are skipped. */
  lemma {:induction false} DecodeAllComplete(rows: seq<Row>, now: Timestamp)
    ensures forall i :: 0 <= i < |rows| && DecodeRow(rows[i], now).Some? ==>
      DecodeRow(rows[i], now).value in DecodeAll(rows, now)
  {
    if rows != [] {
      DecodeAllComplete(rows[1..], now);
      forall i | 1 <= i < |rows| && DecodeRow(rows[i], now).Some?
        ensures DecodeRow(rows[i], now).value in DecodeAll(rows, now)
      {
        assert rows[i] == rows[1..][i - 1];
      }
    }
  }

  /** Every loaded event is the event of some stored row. */
  lemma {:induction false} DecodeAllSound(rows: seq<Row>, now: Timestamp)
    ensures forall e :: e in DecodeAll(rows, now) ==>
      exists i :: 0 <= i < |rows| && DecodeRow(rows[i], now) == Some(e)
  {
    if rows != [] {
      DecodeAllSound(rows[1..], now);
      forall e | e in DecodeAll(rows, now)
        ensures exists i :: 0 <= i < |rows| && DecodeRow(rows[i], now) == Some(e)
      {
        if DecodeRow(rows[0], now) == Some(e) {
        } else {
          assert e in DecodeAll(rows[1..], now);
          var i :| 0 <= i < |rows[1..]| && DecodeRow(rows[1..][i], now) == Some(e);
          assert rows[i + 1] == rows[1..][i];
        }
      }
    }
  }

  /** A loaded list never holds more events than the table has rows. */
  lemma {:induction false} DecodeAllLength(rows: seq<Row>, now: Timestamp)
    ensures |DecodeAll(rows, now)| <= |rows|
    ensures |DecodeAll(rows, now)| == |rows| <==>
      forall i :: 0 <= i < |rows| ==> DecodeRow(rows[i], now).Some?
  {
    if rows != [] {
      DecodeAllLength(rows[1..], now);
      assert forall i :: 1 <= i < |rows| ==> rows[i] == rows[1..][i - 1];
    }
  }

  /**
   * Two loads of the same table at different clock readings agree on the
   * number of events, their topics and their identity keys: the clock only
   * fills in timestamps that are missing.
   */
  lemma {:induction false} DecodeAllClockIndependent(rows: seq<Row>, now0: Timestamp, now1: Timestamp)
    ensures |DecodeAll(rows, now0)| == |DecodeAll(rows, now1)|
    ensures TopicsOf(DecodeAll(rows, now0)) == TopicsOf(DecodeAll(rows, now1))
    ensures KeysOfEvents(DecodeAll(rows, now0)) == KeysOfEvents(DecodeAll(rows, now1))
  {
    if rows != [] {
      DecodeAllClockIndependent(rows[1..], now0, now1);
      var rest0, rest1 := DecodeAll(rows[1..], now0), DecodeAll(rows[1..], now1);
      match DecodeRow(rows[0], now0)
      case Some(e0) =>
        var e1 := DecodeRow(rows[0], now1).value;
        TopicsOfAppend([e0], rest0);
        TopicsOfAppend([e1], rest1);
        KeysOfEventsAppend([e0], rest0);
        KeysOfEventsAppend([e1], rest1);
        assert TopicsOf([e0]) == {e0.topic} == TopicsOf([e1]);
        assert KeysOfEvents([e0]) == {e0.Id()} == KeysOfEvents([e1]);
      case None =>
    }
  }

  /**
   * The table. `present` says whether the processed_events table exists;
   * `rows` holds its rows in admission order.
   */
  class DedupStore {
    var present: bool
    var rows: seq<Row>

    ghost predicate Valid()
      reads this
    {
      KeysUnique(rows) && (!present ==> rows == [])
    }

    /** The identity keys currently stored. */
    function Keys(): set<Key>
      reads this
    {
      KeysOf(rows)
    }

    /** Opens whatever an earlier run left behind (possibly nothing). */
    constructor Open(present: bool, rows: seq<Row>)
      requires KeysUnique(rows) && (present || rows == [])
      ensures Valid() && this.present == present && this.rows == rows
    {
      this.present := present;
      this.rows := rows;
    }

    /** Creates the table if it is missing; existing rows are kept, so a second call changes nothing. */
    method Setup()
      requires Valid()
      modifies this
      ensures Valid() && present && rows == old(rows)
    {
      present := true;
    }

    /**
     * Insert-or-reject on the primary key. `failure` stands for any error
     * other than a key clash; such an error is reached before the commit,
     * so nothing is written. A missing table is such an error too.
     */
    method Insert(e: Event, failure: bool) returns (admitted: bool)
      requires Valid()
      modifies this
      ensures Valid() && present == old(present)
      ensures admitted <==> old(present) && !failure && e.Id() !in old(Keys())
      ensures rows == if admitted then old(rows) + [EncodeRow(e)] else old(rows)
      ensures e.Id() in Keys() <==> admitted || e.Id() in old(Keys())
    {
      if !present || failure {
        admitted := false;
      } else if e.Id() in KeysOf(rows) {
        admitted := false;
      } else {
        KeysUniqueAppend(rows, EncodeRow(e));
        KeysOfAppend(rows, EncodeRow(e));
        rows := rows + [EncodeRow(e)];
        admitted := true;
      }
    }

    /**
     * The ordered scan: every row that parses, in admission order. A missing
     * table or a failed read (`readFailure`) gives the empty list; `now`
     * fills in missing timestamps.
     */
    method LoadAll(now: Timestamp, readFailure: bool) returns (events: seq<Event>)
      ensures events == if !present || readFailure then [] else DecodeAll(rows, now)
    {
      if !present || readFailure {
        return [];
      }
      events := [];
      for i := 0 to |rows|
        invariant events + DecodeAll(rows[i..], now) == DecodeAll(rows, now)
      {
        assert rows[i..][1..] == rows[i + 1..];
        match DecodeRow(rows[i], now)
        case Some(e) =>
          events := events + [e];
        case None =>
      }
      assert rows[|rows|..] == [];
    }
  }
}
