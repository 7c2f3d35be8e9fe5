/** The event bus and its subscriptions: append, publish to a broadcast ring, replay, then live
  * delivery with deduplication by id (src/events/publisher.rs). */
module Publisher {
  import opened Options
  import opened Timestamps
  import opened Events
  import opened EventStore

  const BROADCAST_CAPACITY: nat := 1024

  // ----- The broadcast channel -----

  /** Everything sent so far; the ring retains the last `capacity` messages. */
  datatype Channel = Channel(sent: seq<Event>, capacity: nat, open: bool)

  datatype Received = Message(e: Event) | Overrun(missed: nat) | Empty | Disconnected

  /** One read of a receiver: an overrun moves it to the oldest retained message. */
  function Receive(ch: Channel, position: nat): (Received, nat) {
    if position + ch.capacity < |ch.sent| then (Overrun(|ch.sent| - ch.capacity - position), |ch.sent| - ch.capacity)
    else if position < |ch.sent| then (Message(ch.sent[position]), position + 1)
    else (if ch.open then Empty else Disconnected, position)
  }

  // ----- Subscriptions -----

  datatype Subscription = Subscription(replay: seq<Event>, replayIdx: nat, lastSeenId: int, position: nat)

  /** `Pending` is a read that still waits for a message. */
  datatype SubRecv = Delivered(e: Event) | Lagged(skipped: nat) | Closed | Pending

  function MaxId(es: seq<Event>, floor: int): int {
    if es == [] then floor else MaxId(es[1..], if es[0].id > floor then es[0].id else floor)
  }

  function Backlog(rows: seq<Event>, afterId: int): seq<Event> {
    Between(rows, None, afterId, I64_MAX + 1)
  }

  /** The subscription made from the receiver position taken first and the rows queried afterwards. */
  function Subscribed(rows: seq<Event>, limit: nat, afterId: int, position: nat): Subscription {
    var replay := FirstRows(Backlog(rows, afterId), limit);
    Subscription(replay, 0, MaxId(replay, afterId), position)
  }

  /** One replayed event or one read of the live channel; None for a live event already delivered. */
  function ReadOnce(ch: Channel, s: Subscription): (Option<SubRecv>, Subscription) {
    if s.replayIdx < |s.replay| then
      var e := s.replay[s.replayIdx];
      var seen := if e.id > s.lastSeenId then e.id else s.lastSeenId;
      (Some(Delivered(e)), s.(replayIdx := s.replayIdx + 1, lastSeenId := seen))
    else
      var (r, position) := Receive(ch, s.position);
      var s' := s.(replay := [], position := position);
      match r
      case Message(e) =>
        if e.id <= s.lastSeenId then (None, s') else (Some(Delivered(e)), s'.(lastSeenId := e.id))
      case Overrun(n) => (Some(Lagged(n)), s')
      case Empty => (Some(Pending), s')
      case Disconnected => (Some(Closed), s')
  }

  /** `recv_or_lag`: reads until there is something to return. */
  function NextOutcome(ch: Channel, s: Subscription): (SubRecv, Subscription)
    decreases if s.position < |ch.sent| then |ch.sent| - s.position else 0
  {
    var (r, s') := ReadOnce(ch, s);
    if r.Some? then (r.value, s') else NextOutcome(ch, s')
  }

  datatype PublishError = MissingId

  class EventBus {
    const store: Store
    const capacity: nat
    var sent: seq<Event>
    var open: bool
    var hasFanout: bool
    var fanned: seq<Event>  // handed to the WebSocket hub

    ghost function View(): Channel
      reads this
    {
      Channel(sent, capacity, open)
    }

    constructor (store: Store)
      ensures this.store == store && View() == Channel([], 1024, true) && !hasFanout && fanned == []
    {
      this.store := store;
      capacity := BROADCAST_CAPACITY;
      sent, open := [], true;
      hasFanout, fanned := false, [];
    }

    method SetLiveFanout()
      modifies this`hasFanout
      ensures hasFanout
    {
      hasFanout := true;
    }

    /** To the ring, and to the hub if one is set. */
    method PublishLive(e: Event)
      modifies this`sent, this`fanned
      ensures sent == old(sent) + [e]
      ensures fanned == if hasFanout then old(fanned) + [e] else old(fanned)
    {
      sent := sent + [e];
      if hasFanout {
        fanned := fanned + [e];
      }
    }

    /** Persist, then publish. */
    method AppendAndPublish(event: Event, now: Stamp) returns (r: Result<Event, StoreError>)
      requires store.Valid() && IsStamp(event.timestamp) && IsStamp(now)
      modifies this`sent, this`fanned, store
      ensures store.Valid()
      ensures fanned == if r.Ok? && hasFanout then old(fanned) + [r.value] else old(fanned)
      ensures r.Ok? ==> r.value.id == old(store.lastId) + 1 == store.lastId
                        && store.rows == old(store.rows) + [r.value] && sent == old(sent) + [r.value]
      ensures r.Err? ==> store.rows == old(store.rows) && sent == old(sent)
    {
      r := store.Append(event, now);
      if r.Ok? {
        PublishLive(r.value);
      }
    }

    /** Publishing an event that has no durable id is refused. */
    method Publish(e: Event) returns (r: Result<(), PublishError>)
      modifies this`sent, this`fanned
      ensures r == if e.id == 0 then Err(MissingId) else Ok(())
      ensures sent == if e.id == 0 then old(sent) else old(sent) + [e]
      ensures fanned == if e.id != 0 && hasFanout then old(fanned) + [e] else old(fanned)
    {
      if e.id == 0 {
        return Err(MissingId);
      }
      PublishLive(e);
      return Ok(());
    }

    method Subscribe(afterId: int) returns (s: EventSubscription)
      ensures fresh(s) && s.bus == this
      ensures s.View() == Subscribed(store.rows, DEFAULT_QUERY_LIMIT, afterId, |sent|)
    {
      var position := |sent|;
      var replay := QueryAfter(store.rows, None, afterId, 0);
      var lastReplayId := afterId;
      for i := 0 to |replay|
        invariant MaxId(replay[i..], lastReplayId) == MaxId(replay, afterId)
      {
        assert replay[i..][1..] == replay[i + 1..];
        if replay[i].id > lastReplayId {
          lastReplayId := replay[i].id;
        }
      }
      s := new EventSubscription(this, replay, lastReplayId, position);
    }
  }

  class EventSubscription {
    const bus: EventBus
    var replay: seq<Event>
    var replayIdx: nat
    var lastSeenId: int
    var position: nat

    ghost function View(): Subscription
      reads this
    {
      Subscription(replay, replayIdx, lastSeenId, position)
    }

    constructor (bus: EventBus, replay: seq<Event>, lastSeenId: int, position: nat)
      ensures this.bus == bus && View() == Subscription(replay, 0, lastSeenId, position)
    {
      this.bus := bus;
      this.replay, this.replayIdx := replay, 0;
      this.lastSeenId, this.position := lastSeenId, position;
    }

    method RecvOrLag() returns (r: SubRecv)
      modifies this
      ensures (r, View()) == NextOutcome(bus.View(), old(View()))
    {
      if replayIdx < |replay| {
        var e := replay[replayIdx];
        replayIdx := replayIdx + 1;
        if e.id > lastSeenId {
          lastSeenId := e.id;
        }
        return Delivered(e);
      }
      if replay != [] {
        replay := [];
      }
      while true
        invariant replay == [] && bus.View() == old(bus.View())
        invariant NextOutcome(bus.View(), View()) == NextOutcome(bus.View(), old(View()))
        decreases if position < |bus.sent| then |bus.sent| - position else 0
      {
        var (received, next) := Receive(Channel(bus.sent, bus.capacity, bus.open), position);
        position := next;
        match received
        case Message(e) =>
          if e.id > lastSeenId {
            lastSeenId := e.id;
            return Delivered(e);
          }
        case Overrun(n) => return Lagged(n);
        case Empty => return Pending;
        case Disconnected => return Closed;
      }
    }
  }
}
