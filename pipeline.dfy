/**
 * The aggregator of src/main.py: the ingestion queue, the single consumer
 * that runs every queued event through the store's insert-or-reject, the
 * in-memory projection (unique list, counters, topic set) it keeps, the
 * startup rehydration that rebuilds that projection from the store, and
 * the publish and read paths.
 */
module Pipeline {
  import opened Events
  import opened Store

  /**
   * What draining `es` admits: an event is admitted when the store is
   * ready, its insert does not fail and its key is neither stored (`seen`)
   * nor admitted earlier in the drain.
   */
  function AdmitAll(ready: bool, seen: set<Key>, es: seq<Event>, failures: seq<bool>): seq<Event>
    requires |failures| == |es|
    decreases |es|
  {
    if es == [] then []
    else if ready && !failures[0] && es[0].Id() !in seen then
      [es[0]] + AdmitAll(ready, seen + {es[0].Id()}, es[1..], failures[1..])
    else
      AdmitAll(ready, seen, es[1..], failures[1..])
  }

  lemma AdmitAllUnfold(ready: bool, seen: set<Key>, es: seq<Event>, failures: seq<bool>)
    requires |failures| == |es| && es != []
    ensures AdmitAll(ready, seen, es, failures)
      == if ready && !failures[0] && es[0].Id() !in seen
         then [es[0]] + AdmitAll(ready, seen + {es[0].Id()}, es[1..], failures[1..])
         else AdmitAll(ready, seen, es[1..], failures[1..])
  {
  }

  /** No event of es has a key in seen. */
  ghost predicate AllNew(es: seq<Event>, seen: set<Key>)
  {
    forall e :: e in es ==> e.Id() !in seen
  }

  /** No two events of es share a key. */
  ghost predicate IdsDistinct(es: seq<Event>)
  {
    forall i, j :: 0 <= i < j < |es| ==> es[i].Id() != es[j].Id()
  }

  /** At most one admission per identity key: admitted keys are new and pairwise distinct. */
  lemma {:induction false} AdmitAllFresh(ready: bool, seen: set<Key>, es: seq<Event>, failures: seq<bool>)
    requires |failures| == |es|
    decreases |es|
    ensures AllNew(AdmitAll(ready, seen, es, failures), seen)
    ensures IdsDistinct(AdmitAll(ready, seen, es, failures))
  {
    if es != [] {
      if ready && !failures[0] && es[0].Id() !in seen {
        AdmitAllFresh(ready, seen + {es[0].Id()}, es[1..], failures[1..]);
        var rest := AdmitAll(ready, seen + {es[0].Id()}, es[1..], failures[1..]);
        var admitted := [es[0]] + rest;
        forall i, j | 0 <= i < j < |admitted| ensures admitted[i].Id() != admitted[j].Id() {
          if i == 0 {
            assert admitted[j] == rest[j - 1];
            assert admitted[j] in rest;
          } else {
            assert admitted[i] == rest[i - 1] && admitted[j] == rest[j - 1];
          }
        }
      } else {
        AdmitAllFresh(ready, seen, es[1..], failures[1..]);
        assert AdmitAll(ready, seen, es, failures) == AdmitAll(ready, seen, es[1..], failures[1..]);
      }
    }
  }

  /** Admission keeps the arrival (FIFO) order of the admitted events. */
  lemma {:induction false} AdmitAllOrder(ready: bool, seen: set<Key>, es: seq<Event>, failures: seq<bool>)
    requires |failures| == |es|
    decreases |es|
    ensures IsSubseq(AdmitAll(ready, seen, es, failures), es)
  {
    if es != [] {
      if ready && !failures[0] && es[0].Id() !in seen {
        AdmitAllOrder(ready, seen + {es[0].Id()}, es[1..], failures[1..]);
        var rest := AdmitAll(ready, seen + {es[0].Id()}, es[1..], failures[1..]);
        assert ([es[0]] + rest)[1..] == rest;
      } else {
        AdmitAllOrder(ready, seen, es[1..], failures[1..]);
        SubseqOfTail(AdmitAll(ready, seen, es[1..], failures[1..]), es);
      }
    }
  }

  /**
   * With a ready store and no failed inserts, the number of admissions is the
   * number of distinct new identity keys in the drained events, and every
   * key of those events is stored afterwards.
   */
  lemma {:induction false} AdmitAllCount(seen: set<Key>, es: seq<Event>, failures: seq<bool>)
    requires |failures| == |es| && true !in failures
    decreases |es|
    ensures |AdmitAll(true, seen, es, failures)| == |KeysOfEvents(es) - seen|
    ensures KeysOfEvents(es) <= seen + KeysOfEvents(AdmitAll(true, seen, es, failures))
  {
    if es == [] {
      assert KeysOfEvents(es) == {};
    } else {
      var e, tail, fs := es[0], es[1..], failures[1..];
      assert es == [e] + tail;
      KeysOfEventsCons(e, tail);
      assert true !in fs by {
        forall f | f in fs ensures f != true { assert f in failures; }
      }
      assert !failures[0] by { assert failures[0] in failures; }
      AdmitAllUnfold(true, seen, es, failures);
      if e.Id() !in seen {
        var seen' := seen + {e.Id()};
        AdmitAllCount(seen', tail, fs);
        var rest := AdmitAll(true, seen', tail, fs);
        KeysOfEventsCons(e, rest);
        NewKeyCount(e.Id(), seen, KeysOfEvents(tail));
      } else {
        AdmitAllCount(seen, tail, fs);
        assert KeysOfEvents(es) - seen == KeysOfEvents(tail) - seen;
      }
    }
  }

  lemma KeysOfEventsCons(e: Event, tail: seq<Event>)
    ensures KeysOfEvents([e] + tail) == {e.Id()} + KeysOfEvents(tail)
  {
    KeysOfEventsAppend([e], tail);
    assert KeysOfEvents([e]) == {e.Id()};
  }

  lemma NewKeyCount(k: Key, seen: set<Key>, keys: set<Key>)
    requires k !in seen
    ensures |({k} + keys) - seen| == 1 + |keys - (seen + {k})|
  {
    assert ({k} + keys) - seen == {k} + (keys - (seen + {k}));
  }

  /** A run of events with new, pairwise distinct keys is admitted whole and in order. */
  lemma {:induction false} AdmitAllDistinct(seen: set<Key>, es: seq<Event>, failures: seq<bool>)
    requires |failures| == |es| && true !in failures
    decreases |es|
    requires IdsDistinct(es) && AllNew(es, seen)
    ensures AdmitAll(true, seen, es, failures) == es
  {
    if es != [] {
      assert failures[0] in failures;
      var seen' := seen + {es[0].Id()};
      forall e | e in es[1..] ensures e.Id() !in seen' {
        var j :| 0 <= j < |es[1..]| && es[1..][j] == e;
        assert es[j + 1] == e;
      }
      assert true !in failures[1..] by {
        forall f | f in failures[1..] ensures f != true { assert f in failures; }
      }
      forall i, j | 0 <= i < j < |es[1..]| ensures es[1..][i].Id() != es[1..][j].Id() {
        assert es[1..][i] == es[i + 1] && es[1..][j] == es[j + 1];
      }
      AdmitAllDistinct(seen', es[1..], failures[1..]);
    }
  }

  /** A key admitted once is never admitted again, however its other fields differ. */
  lemma SecondCopyDropped(ready: bool, seen: set<Key>, e: Event, again: Event)
    requires again.Id() == e.Id()
    ensures AdmitAll(ready, seen, [e, again], [false, false])
      == if ready && e.Id() !in seen then [e] else []
  {
    assert [e, again][1..] == [again];
    assert [again][1..] == [];
    assert [false, false][1..] == [false];
    assert [false][1..] == [];
    AdmitAllUnfold(ready, seen, [e, again], [false, false]);
    AdmitAllUnfold(ready, seen, [again], [false]);
    AdmitAllUnfold(ready, seen + {e.Id()}, [again], [false]);
  }

  /** es[i] is the first event of es with its key. */
  ghost predicate FirstWithKey(es: seq<Event>, i: int)
    requires 0 <= i < |es|
  {
    forall j :: 0 <= j < i ==> es[j].Id() != es[i].Id()
  }

  /**
   * With a ready store and no failed inserts, the first copy of every new
   * key in the queue is admitted, whatever copies follow it.
   */
  lemma {:induction false} FirstCopyAdmitted(seen: set<Key>, es: seq<Event>, failures: seq<bool>)
    requires |failures| == |es| && true !in failures
    decreases |es|
    ensures forall i :: 0 <= i < |es| && es[i].Id() !in seen && FirstWithKey(es, i) ==>
      es[i] in AdmitAll(true, seen, es, failures)
  {
    if es != [] {
      assert !failures[0] by { assert failures[0] in failures; }
      assert true !in failures[1..] by {
        forall f | f in failures[1..] ensures f != true { assert f in failures; }
      }
      AdmitAllUnfold(true, seen, es, failures);
      var seen' := if es[0].Id() !in seen then seen + {es[0].Id()} else seen;
      FirstCopyAdmitted(seen', es[1..], failures[1..]);
      forall i | 0 <= i < |es| && es[i].Id() !in seen && FirstWithKey(es, i)
        ensures es[i] in AdmitAll(true, seen, es, failures)
      {
        if i > 0 {
          assert es[1..][i - 1] == es[i];
          assert es[0].Id() != es[i].Id();
          forall j | 0 <= j < i - 1 ensures es[1..][j].Id() != es[1..][i - 1].Id() {
            assert es[1..][j] == es[j + 1];
          }
          assert FirstWithKey(es[1..], i - 1);
        }
      }
    }
  }

  /**
   * First copy wins: with a ready store and no failed inserts, the first
   * event of the queue with a new key is admitted, and it is the only
   * admitted event with that key, so a later copy with another payload or
   * timestamp never replaces it.
   */
  lemma FirstCopyWins(seen: set<Key>, es: seq<Event>, failures: seq<bool>, i: int)
    requires |failures| == |es| && true !in failures
    requires 0 <= i < |es| && es[i].Id() !in seen && FirstWithKey(es, i)
    ensures es[i] in AdmitAll(true, seen, es, failures)
    ensures forall e :: e in AdmitAll(true, seen, es, failures) && e.Id() == es[i].Id() ==> e == es[i]
  {
    FirstCopyAdmitted(seen, es, failures);
    AdmitAllFresh(true, seen, es, failures);
    var admitted := AdmitAll(true, seen, es, failures);
    var k :| 0 <= k < |admitted| && admitted[k] == es[i];
    forall e | e in admitted && e.Id() == es[i].Id() ensures e == es[i] {
      var m :| 0 <= m < |admitted| && admitted[m] == e;
      assert m == k;
    }
  }

  /** The topic filter of the read path, for a non-empty topic. */
  function FilterTopic(es: seq<Event>, topic: string): seq<Event>
  {
    if es == [] then []
    else if es[0].topic == topic then [es[0]] + FilterTopic(es[1..], topic)
    else FilterTopic(es[1..], topic)
  }

  /**
   * The filter keeps exactly the events of the topic: in list order, nothing
   * of another topic, and each event of the topic as often as the list has it.
   */
  lemma {:induction false} FilterTopicExact(es: seq<Event>, topic: string)
    decreases |es|
    ensures IsSubseq(FilterTopic(es, topic), es)
    ensures forall e :: e in FilterTopic(es, topic) ==> e.topic == topic
    ensures forall e: Event ::
      multiset(FilterTopic(es, topic))[e] == if e.topic == topic then multiset(es)[e] else 0
  {
    if es != [] {
      FilterTopicExact(es[1..], topic);
      var rest := FilterTopic(es[1..], topic);
      assert es == [es[0]] + es[1..];
      if es[0].topic == topic {
        assert ([es[0]] + rest)[1..] == rest;
      } else {
        SubseqOfTail(rest, es);
      }
    }
  }

  /**
   * get_events: with a topic, exactly the events of that topic in list
   * order; with no topic (or the empty one, which counts as absent) the
   * whole list.
   */
  function EventsByTopic(es: seq<Event>, topic: Option<string>): (r: seq<Event>)
    ensures topic == None || topic == Some("") ==> r == es
    ensures topic.Some? && topic.value != "" ==>
      && IsSubseq(r, es)
      && (forall e :: e in r ==> e.topic == topic.value)
      && (forall e: Event :: e.topic == topic.value ==> multiset(r)[e] == multiset(es)[e])
  {
    match topic
    case None => es
    case Some(t) =>
      if t == "" then es
      else
        FilterTopicExact(es, t);
        FilterTopic(es, t)
  }

  /** A reader's filtered view only grows as the consumer appends events. */
  lemma {:induction false} FilterTopicAppend(es: seq<Event>, e: Event, topic: string)
    decreases |es|
    ensures FilterTopic(es + [e], topic)
      == FilterTopic(es, topic) + (if e.topic == topic then [e] else [])
  {
    if es == [] {
      assert es + [e] == [e] && [e][1..] == [];
    } else {
      assert (es + [e])[1..] == es[1..] + [e];
      FilterTopicAppend(es[1..], e, topic);
    }
  }

  /** One consumer turn moves the head of the remaining drain into the done part. */
  lemma DrainStep(done: seq<Event>, all: seq<Event>, ready: bool, seen: set<Key>, queue: seq<Event>, failures: seq<bool>)
    requires |failures| == |queue| && queue != []
    requires done + AdmitAll(ready, seen, queue, failures) == all
    ensures var admitted := ready && !failures[0] && queue[0].Id() !in seen;
      (if admitted then done + [queue[0]] else done)
      + AdmitAll(ready, if admitted then seen + {queue[0].Id()} else seen, queue[1..], failures[1..])
      == all
  {
    AdmitAllUnfold(ready, seen, queue, failures);
    var admitted := ready && !failures[0] && queue[0].Id() !in seen;
    if admitted {
      assert done + [queue[0]] + AdmitAll(ready, seen + {queue[0].Id()}, queue[1..], failures[1..])
        == done + ([queue[0]] + AdmitAll(ready, seen + {queue[0].Id()}, queue[1..], failures[1..]));
    }
  }

  /** What appending one admitted event does to the derived rows and topics. */
  lemma AppendAdmitted(done: seq<Event>, e: Event)
    ensures EncodeAll(done + [e]) == EncodeAll(done) + [EncodeRow(e)]
    ensures TopicsOf(done + [e]) == TopicsOf(done) + {e.topic}
  {
    TopicsOfAppend(done, [e]);
    assert TopicsOf([e]) == {e.topic};
  }

  /** The body of a publish request: one event or a batch of events. */
  datatype PublishBody = Single(event: Event) | Batch(events: seq<Event>)

  function EventsOf(body: PublishBody): seq<Event>
  {
    match body
    case Single(e) => [e]
    case Batch(es) => es
  }

  /** The answer of the stats endpoint, without the uptime. */
  datatype StatsView = StatsView(
    received: nat,
    uniqueProcessed: nat,
    duplicateDropped: nat,
    topics: set<string>)

  /**
   * The process-wide state of the aggregator: the ingestion queue, the
   * projection (unique list, counters, topic set) and the store it
   * writes to. Ghost state: `synced` records that the projection was
   * rebuilt from the store at startup with clock reading `clock`;
   * `loadedCount` is how many events that rebuild loaded.
   */
  class Aggregator {
    const store: DedupStore
    var queue: seq<Event>
    var uniqueEvents: seq<Event>
    var received: nat
    var uniqueProcessed: nat
    var duplicateDropped: nat
    var topics: set<string>
    ghost var synced: bool
    ghost var clock: Timestamp
    ghost var loadedCount: nat

    /** The store keeps its key constraint; a synced projection mirrors the store. */
    ghost predicate Valid()
      reads this, store
    {
      store.Valid() && (synced ==> uniqueEvents == DecodeAll(store.rows, clock))
    }

    /**
     * The projection agrees with itself: the unique counter is the length
     * of the list, the topic set is the list's topics, and every received
     * event is either still queued or counted exactly once.
     */
    ghost predicate Consistent()
      reads this
    {
      && uniqueProcessed == |uniqueEvents|
      && topics == TopicsOf(uniqueEvents)
      && received + loadedCount == uniqueProcessed + duplicateDropped + |queue|
    }

    /** The state before startup. */
    ghost predicate Fresh()
      reads this
    {
      queue == [] && uniqueEvents == [] && received == 0 && uniqueProcessed == 0
      && duplicateDropped == 0 && topics == {} && loadedCount == 0
    }

    constructor (store: DedupStore)
      requires store.Valid()
      ensures this.store == store && Valid() && Fresh() && Consistent() && !synced
    {
      this.store := store;
      queue := [];
      uniqueEvents := [];
      received, uniqueProcessed, duplicateDropped := 0, 0, 0;
      topics := {};
      synced := false;
      clock := "";
      loadedCount := 0;
    }

    /**
     * Startup: prepare the store, load every stored event and rebuild the
     * projection from them. The loaded events are appended to the list;
     * the unique counter and the topic set are overwritten; received,
     * duplicate_dropped and the queue are left as they are.
     */
    method Startup(now: Timestamp, readFailure: bool)
      requires Valid()
      modifies this, store
      ensures Valid() && store.present && store.rows == old(store.rows)
      ensures var loaded := if readFailure then [] else DecodeAll(store.rows, now);
        && uniqueEvents == old(uniqueEvents) + loaded
        && uniqueProcessed == |loaded|
        && topics == TopicsOf(loaded)
      ensures received == old(received) && duplicateDropped == old(duplicateDropped)
      ensures queue == old(queue)
      ensures synced <==> old(uniqueEvents) == [] && !readFailure
      ensures clock == now && loadedCount == uniqueProcessed
      ensures old(Fresh()) ==> Consistent()
    {
      store.Setup();
      var loaded := store.LoadAll(now, readFailure);
      synced := uniqueEvents == [] && !readFailure;
      clock := now;
      uniqueEvents := uniqueEvents + loaded;
      uniqueProcessed := |loaded|;
      topics := TopicsOf(loaded);
      loadedCount := |loaded|;
    }

    /**
     * One turn of the consumer loop: take the head of the queue, run it
     * through the store's insert-or-reject, then either record it as
     * unique (append, count, add its topic) or count it as dropped. The
     * event is never put back. `failure` is the store error, if any.
     */
    method ProcessOne(failure: bool) returns (admitted: bool)
      requires Valid() && queue != []
      modifies this, store
      ensures Valid()
      ensures queue == old(queue[1..])
      ensures admitted <==> old(store.present) && !failure && old(queue[0]).Id() !in old(store.Keys())
      ensures admitted ==>
        && store.rows == old(store.rows) + [EncodeRow(old(queue[0]))]
        && store.Keys() == old(store.Keys()) + {old(queue[0]).Id()}
        && uniqueEvents == old(uniqueEvents) + [old(queue[0])]
        && uniqueProcessed == old(uniqueProcessed) + 1
        && topics == old(topics) + {old(queue[0]).topic}
        && duplicateDropped == old(duplicateDropped)
      ensures !admitted ==>
        && store.rows == old(store.rows) && store.Keys() == old(store.Keys())
        && uniqueEvents == old(uniqueEvents) && uniqueProcessed == old(uniqueProcessed)
        && topics == old(topics) && duplicateDropped == old(duplicateDropped) + 1
      ensures received == old(received) && store.present == old(store.present)
      ensures synced == old(synced) && clock == old(clock) && loadedCount == old(loadedCount)
      ensures old(Consistent()) ==> Consistent()
    {
      var e := queue[0];
      queue := queue[1..];
      ghost var rows0 := store.rows;
      admitted := store.Insert(e, failure);
      if admitted {
        KeysOfAppend(rows0, EncodeRow(e));
        DecodeAllAppend(rows0, [EncodeRow(e)], clock);
        RowRoundTrip(e, clock);
        TopicsOfAppend(uniqueEvents, [e]);
        assert TopicsOf([e]) == {e.topic};
        uniqueProcessed := uniqueProcessed + 1;
        topics := topics + {e.topic};
        uniqueEvents := uniqueEvents + [e];
      } else {
        duplicateDropped := duplicateDropped + 1;
      }
    }

    /**
     * Runs the consumer until the queue is empty, taking events in FIFO
     * order; `failures[i]` is the store error for the i-th queued event.
     */
    method Drain(failures: seq<bool>)
      requires Valid() && |failures| == |queue|
      modifies this, store
      ensures Valid() && queue == []
      ensures var admitted := AdmitAll(old(store.present), old(store.Keys()), old(queue), failures);
        && uniqueEvents == old(uniqueEvents) + admitted
        && uniqueProcessed == old(uniqueProcessed) + |admitted|
        && duplicateDropped == old(duplicateDropped) + (|old(queue)| - |admitted|)
        && topics == old(topics) + TopicsOf(admitted)
        && store.rows == old(store.rows) + EncodeAll(admitted)
      ensures uniqueProcessed + duplicateDropped
        == old(uniqueProcessed) + old(duplicateDropped) + |old(queue)|
      ensures received == old(received) && store.present == old(store.present)
      ensures synced == old(synced) && clock == old(clock) && loadedCount == old(loadedCount)
      ensures old(Consistent()) ==> Consistent()
    {
      ghost var all := AdmitAll(store.present, store.Keys(), queue, failures);
      ghost var done: seq<Event> := [];
      var i := 0;
      while queue != []
        invariant 0 <= i <= |failures| && queue == old(queue)[i..]
        invariant Valid()
        invariant store.present == old(store.present) && received == old(received)
        invariant synced == old(synced) && clock == old(clock) && loadedCount == old(loadedCount)
        invariant done + AdmitAll(store.present, store.Keys(), queue, failures[i..]) == all
        invariant uniqueEvents == old(uniqueEvents) + done
        invariant uniqueProcessed == old(uniqueProcessed) + |done|
        invariant |done| <= i
        invariant duplicateDropped == old(duplicateDropped) + (i - |done|)
        invariant topics == old(topics) + TopicsOf(done)
        invariant store.rows == old(store.rows) + EncodeAll(done)
        invariant old(Consistent()) ==> Consistent()
        decreases |queue|
      {
        ghost var e, keys, rest := queue[0], store.Keys(), failures[i..];
        assert rest[0] == failures[i] && rest[1..] == failures[i + 1..];
        var admitted := ProcessOne(failures[i]);
        DrainStep(done, all, store.present, keys, old(queue)[i..], rest);
        if admitted {
          AppendAdmitted(done, e);
          done := done + [e];
        }
        i := i + 1;
      }
      assert i == |failures| && failures[i..] == [];
      assert done == all;
    }

    /**
     * publish_events: a single event is a batch of one; every event of the
     * batch is counted as received and queued, in the order given.
     */
    method Publish(body: PublishBody) returns (accepted: nat)
      modifies this
      ensures var batch := EventsOf(body);
        && queue == old(queue) + batch
        && received == old(received) + |batch|
        && accepted == |batch|
      ensures uniqueEvents == old(uniqueEvents) && uniqueProcessed == old(uniqueProcessed)
      ensures duplicateDropped == old(duplicateDropped) && topics == old(topics)
      ensures synced == old(synced) && clock == old(clock) && loadedCount == old(loadedCount)
      ensures old(Valid()) ==> Valid()
      ensures old(Consistent()) ==> Consistent()
    {
      var batch := EventsOf(body);
      for i := 0 to |batch|
        invariant queue == old(queue) + batch[..i]
        invariant received == old(received) + i
        invariant uniqueEvents == old(uniqueEvents) && uniqueProcessed == old(uniqueProcessed)
        invariant duplicateDropped == old(duplicateDropped) && topics == old(topics)
        invariant synced == old(synced) && clock == old(clock) && loadedCount == old(loadedCount)
      {
        received := received + 1;
        queue := queue + [batch[i]];
        assert batch[..i + 1] == batch[..i] + [batch[i]];
      }
      assert batch[..|batch|] == batch;
      accepted := |batch|;
    }

    /** get_stats, less the uptime. */
    function Stats(): (s: StatsView)
      reads this
      ensures Consistent() ==> s.uniqueProcessed == |uniqueEvents| && s.topics == TopicsOf(uniqueEvents)
      ensures s.received == received && s.duplicateDropped == duplicateDropped
    {
      StatsView(received, uniqueProcessed, duplicateDropped, topics)
    }
  }

  /**
   * A restart: the in-memory state is lost and a new aggregator over the
   * same store rebuilds itself. The unique count, the topic set and the
   * admitted keys survive; received and duplicate_dropped start again
   * from zero.
   */
  method Restart(prev: Aggregator, now: Timestamp) returns (next: Aggregator)
    requires prev.Valid() && prev.synced && prev.Consistent()
    modifies prev.store
    ensures next.store == prev.store && next.Valid() && next.Consistent() && next.synced
    ensures prev.store.present && prev.store.rows == old(prev.store.rows)
    ensures next.uniqueProcessed == prev.uniqueProcessed && next.topics == prev.topics
    ensures KeysOfEvents(next.uniqueEvents) == KeysOfEvents(prev.uniqueEvents)
    ensures next.received == 0 && next.duplicateDropped == 0 && next.queue == []
  {
    ghost var rows := prev.store.rows;
    next := new Aggregator(prev.store);
    next.Startup(now, false);
    DecodeAllClockIndependent(rows, prev.clock, now);
  }

  /** Draining b1, b2, b1 into an empty store admits b1 and b2 only. */
  lemma BatchAdmitted(b1: Event, b2: Event, b1Again: Event)
    requires b1.Id() != b2.Id() && b1Again.Id() == b1.Id()
    ensures AdmitAll(true, {}, [b1, b2, b1Again], [false, false, false]) == [b1, b2]
  {
    var seen1, seen2 := {} + {b1.Id()}, {b1.Id()} + {b2.Id()};
    assert [b1, b2, b1Again][1..] == [b2, b1Again] && [b2, b1Again][1..] == [b1Again];
    assert [false, false, false][1..] == [false, false] && [false, false][1..] == [false];
    assert seen1 == {b1.Id()};
    AdmitAllUnfold(true, {}, [b1, b2, b1Again], [false, false, false]);
    AdmitAllUnfold(true, seen1, [b2, b1Again], [false, false]);
    AdmitAllUnfold(true, seen2, [b1Again], [false]);
    assert [b1Again][1..] == [] && [false][1..] == [];
  }

  /**
   * The batch scenario: b1, b2 and a second b1 with another payload are
   * published and drained on a fresh deployment; two are unique and one
   * is dropped.
   */
  method BatchScenario() returns (received: nat, unique: nat, dropped: nat)
    ensures received == 3 && unique == 2 && dropped == 1
  {
    var store := new DedupStore.Open(false, []);
    var aggregator := new Aggregator(store);
    aggregator.Startup("2024-01-01T00:00:00", false);
    var b1 := Event("batch", "b1", "2024-01-01T00:00:01", "pytest", map[]);
    var b2 := Event("batch", "b2", "2024-01-01T00:00:02", "pytest", map[]);
    var b1Again := Event("batch", "b1", "2024-01-01T00:00:03", "pytest", map["retry" := JBool(true)]);
    assert store.rows == [] && store.Keys() == {};
    var _ := aggregator.Publish(Batch([b1, b2, b1Again]));
    assert aggregator.queue == [b1, b2, b1Again];
    aggregator.Drain([false, false, false]);
    BatchAdmitted(b1, b2, b1Again);
    received, unique, dropped :=
      aggregator.received, aggregator.uniqueProcessed, aggregator.duplicateDropped;
  }
}
