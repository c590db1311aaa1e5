/**
 * The log event that flows through the aggregator (src/models.py) and the
 * identity key under which it is deduplicated.
 */
module Events {

  datatype Option<T> = None | Some(value: T)

  /** JSON-compatible values; the pipeline never looks inside a payload. */
  datatype Json =
    | JNull
    | JBool(b: bool)
    | JNumber(n: int)
    | JString(s: string)
    | JArray(items: seq<Json>)
    | JObject(fields: map<string, Json>)

  type Payload = map<string, Json>

  /** A point in time, kept as its ISO-8601 text; the pipeline only copies it. */
  type Timestamp = string

  /** The identity key: two events with the same key are the same logical event. */
  datatype Key = Key(topic: string, eventId: string)

  datatype Event = Event(
    topic: string,
    eventId: string,
    timestamp: Timestamp,
    source: string,
    payload: Payload)
  {
    /** Only topic and event id take part in deduplication. */
    function Id(): Key { Key(topic, eventId) }
  }

  /** The distinct topics of a list of events. */
  function TopicsOf(es: seq<Event>): set<string>
  {
    set e | e in es :: e.topic
  }

  /** The distinct identity keys of a list of events. */
  function KeysOfEvents(es: seq<Event>): set<Key>
  {
    set e | e in es :: e.Id()
  }

  /** a is b with some elements left out, the rest kept in their order. */
  ghost predicate IsSubseq<T>(a: seq<T>, b: seq<T>)
    decreases |b|
  {
    if a == [] then true
    else if b == [] then false
    else (a[0] == b[0] && IsSubseq(a[1..], b[1..])) || IsSubseq(a, b[1..])
  }

  lemma TopicsOfAppend(es: seq<Event>, extra: seq<Event>)
    ensures TopicsOf(es + extra) == TopicsOf(es) + TopicsOf(extra)
  {
    var all := es + extra;
    forall t | t in TopicsOf(all) ensures t in TopicsOf(es) + TopicsOf(extra) {
      var e :| e in all && e.topic == t;
      if e in es { assert t in TopicsOf(es); } else { assert t in TopicsOf(extra); }
    }
    forall t | t in TopicsOf(es) + TopicsOf(extra) ensures t in TopicsOf(all) {
      if t in TopicsOf(es) {
        var e :| e in es && e.topic == t;
        assert e in all;
      } else {
        var e :| e in extra && e.topic == t;
        assert e in all;
      }
    }
  }

  lemma KeysOfEventsAppend(es: seq<Event>, extra: seq<Event>)
    ensures KeysOfEvents(es + extra) == KeysOfEvents(es) + KeysOfEvents(extra)
  {
    var all := es + extra;
    forall k | k in KeysOfEvents(all) ensures k in KeysOfEvents(es) + KeysOfEvents(extra) {
      var e :| e in all && e.Id() == k;
      if e in es { assert k in KeysOfEvents(es); } else { assert k in KeysOfEvents(extra); }
    }
    forall k | k in KeysOfEvents(es) + KeysOfEvents(extra) ensures k in KeysOfEvents(all) {
      if k in KeysOfEvents(es) {
        var e :| e in es && e.Id() == k;
        assert e in all;
      } else {
        var e :| e in extra && e.Id() == k;
        assert e in all;
      }
    }
  }
}
