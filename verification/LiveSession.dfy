/** One live session: subscriptions with bounded queues and a bounded event log. */
module LiveSession {
  import opened Text
  import opened LiveEvents
  import opened LiveLog

  datatype Key = Key(target: string, revision: string, worker: string)

  /** `pop` */
  function Without<K, V>(m: map<K, V>, key: K): map<K, V> {
    map k | k in m && k != key :: m[k]
  }

  lemma AddGrows<K, V>(m: map<K, V>, key: K, value: V)
    ensures |m[key := value]| <= |m| + 1
  {
    assert (m[key := value]).Keys == m.Keys + {key};
  }

  lemma DropShrinks<K, V>(m: map<K, V>, key: K)
    ensures |Without(m, key)| <= |m|
  {
    assert Without(m, key).Keys == m.Keys - {key};
    if key !in m {
      assert m.Keys - {key} == m.Keys;
    }
  }

  /** The state of a subscription: its queue, everything `get` has returned, and the last event id acknowledged. */
  datatype Seat = Seat(queue: seq<Item>, taken: seq<Item>, cursor: nat, closed: bool)

  ghost predicate ValidSeat(seat: Seat, size: nat, last: nat) {
    size > 0 && |seat.queue| <= size && Stream(seat.taken + seat.queue, last)
    && forall i | 0 <= i < |seat.queue| && seat.queue[i].Changed? :: seat.cursor < seat.queue[i].event.id
  }

  /** The state of a session: its times, its log and counter, everything it published, and its subscriptions with their states. */
  datatype Room = Room(createdAt: real, lastActivity: real, events: seq<LiveChange>, nextId: nat, history: seq<LiveChange>,
                       subscribers: map<string, LiveSubscription>, seats: map<string, Seat>)

  /** Every subscription stands under its own id and is of this key. */
  ghost predicate Owned(key: Key, subscribers: map<string, LiveSubscription>) {
    forall id | id in subscribers :: subscribers[id].id == id && subscribers[id].key == key
  }

  ghost predicate ValidRoom(key: Key, max: nat, r: Room) {
    && max > 0 && History(r.history) && r.nextId == |r.history| + 1 && r.events == Kept(r.history, max)
    && Owned(key, r.subscribers) && r.seats.Keys == r.subscribers.Keys
    && forall id | id in r.subscribers ::
      ValidSeat(r.seats[id], r.subscribers[id].size, |r.history|) && !r.seats[id].closed && r.seats[id].cursor <= |r.history|
  }

  function EmptyRoom(now: real): Room {
    Room(now, now, [], 1, [], map[], map[])
  }

  /** The event is logged and offered to every subscription. */
  function WithEvent(r: Room, max: nat, event: LiveChange): Room {
    r.(events := Kept(r.events + [event], max), nextId := r.nextId + 1, history := r.history + [event],
       seats := map id | id in r.seats && id in r.subscribers :: SeatWith(r.seats[id], r.subscribers[id].size, event))
  }

  function SeatWith(seat: Seat, size: nat, event: LiveChange): Seat {
    if seat.closed then seat else seat.(queue := Offered(seat.queue, size, event))
  }

  function WithSubscription(r: Room, subscription: LiveSubscription): Room {
    r.(subscribers := r.subscribers[subscription.id := subscription], seats := r.seats[subscription.id := Seat([], [], 0, false)])
  }

  function WithoutSubscription(r: Room, id: string): Room {
    r.(subscribers := Without(r.subscribers, id), seats := Without(r.seats, id))
  }

  lemma EventKeepsRoom(key: Key, max: nat, r: Room, change: Change)
    requires ValidRoom(key, max, r)
    ensures ValidRoom(key, max, WithEvent(r, max, LiveChange(r.nextId, change)))
  {
    hide Stream, Kept;
    var event := LiveChange(r.nextId, change);
    var next := WithEvent(r, max, event);
    KeptStep(r.history, max, event);
    forall id | id in r.subscribers
      ensures ValidSeat(next.seats[id], r.subscribers[id].size, event.id)
    {
      OfferKeepsStream(r.seats[id].taken, r.seats[id].queue, r.subscribers[id].size, event, event.id - 1);
    }
  }

  lemma EventKeepsSubscribers(r: Room, max: nat, event: LiveChange)
    ensures WithEvent(r, max, event).subscribers == r.subscribers
  {
  }

  lemma SubscriptionKeepsRoom(key: Key, max: nat, r: Room, s: LiveSubscription)
    requires ValidRoom(key, max, r) && s.key == key && s.size > 0
    ensures ValidRoom(key, max, WithSubscription(r, s))
  {
    hide Kept, History;
  }

  lemma LeavingKeepsRoom(key: Key, max: nat, r: Room, id: string)
    requires ValidRoom(key, max, r)
    ensures ValidRoom(key, max, WithoutSubscription(r, id))
  {
    hide Kept, History, ValidSeat;
  }

  lemma RoomMeans(key: Key, max: nat, r: Room)
    requires ValidRoom(key, max, r)
    ensures Owned(key, r.subscribers) && r.seats.Keys == r.subscribers.Keys && max > 0 && |r.events| <= max
    ensures r.nextId == |r.history| + 1
    ensures forall id | id in r.subscribers ::
      ValidSeat(r.seats[id], r.subscribers[id].size, |r.history|) && r.seats[id].cursor <= |r.history|
  {
    hide History, ValidSeat;
  }

  /** For a cursor of this session: all later events in order, or a gap exactly when the next one was evicted. */
  ghost predicate Exact(room: Room, after: nat, r: Replay) {
    && r == ReplayOf(room.events, room.nextId, after)
    && (after <= |room.history| ==>
          r == if after < |room.history| && room.history[after] !in room.events then Gap else Events(room.history[after..]))
  }

  class LiveSubscription {
    const key: Key
    const id: string
    const size: nat
    var queue: seq<Item>
    var closed: bool
    var cursor: nat
    /** Everything `get` has returned. */
    ghost var taken: seq<Item>

    ghost function State(): Seat
      reads this
    {
      Seat(queue, taken, cursor, closed)
    }

    ghost predicate Valid(last: nat)
      reads this
    {
      ValidSeat(State(), size, last)
    }

    constructor (key: Key, id: string, size: nat, ghost last: nat)
      requires size > 0
      ensures Valid(last) && queue == [] && taken == [] && cursor == 0 && !closed
      ensures this.key == key && this.id == id && this.size == size
    {
      this.key, this.id, this.size, queue, closed, cursor, taken := key, id, size, [], false, 0, [];
    }

    method Offer(event: LiveChange)
      requires event.id > 0 && Valid(event.id - 1) && cursor < event.id
      modifies this`queue
      ensures queue == if closed then old(queue) else Offered(old(queue), size, event)
      ensures !closed ==> Valid(event.id)
    {
      hide Stream;
      OfferKeepsStream(taken, queue, size, event, event.id - 1);
      if closed {
        return;
      }
      if |queue| < size {
        queue := queue + [Changed(event)];
        return;
      }
      while queue != []
        decreases |queue|
      {
        queue := queue[1..];
      }
      if |queue| < size {
        queue := queue + [Resync];
      }
    }

    /** The next item, None when the wait times out. */
    method Get(ghost last: nat) returns (item: Option<Item>)
      requires Valid(last)
      modifies this`queue, this`taken
      ensures Valid(last) && taken + queue == old(taken + queue)
      ensures item == if old(queue) == [] then None else Some(old(queue)[0])
      ensures queue == if old(queue) == [] then [] else old(queue)[1..]
    {
      if queue == [] {
        return None;
      }
      item := Some(queue[0]);
      taken := taken + [queue[0]];
      queue := queue[1..];
      assert taken + queue == old(taken + queue);
    }

    method Acknowledge(id: nat) returns (raised: bool)
      modifies this`cursor
      ensures raised <==> id < old(cursor)
      ensures cursor == if raised then old(cursor) else id
    {
      raised := id < cursor;
      if !raised {
        cursor := id;
      }
    }

    /** The stream handler's turn: taking an item and acknowledging it never raises. */
    method Deliver(ghost last: nat) returns (item: Option<Item>)
      requires Valid(last)
      modifies this`queue, this`taken, this`cursor
      ensures Valid(last) && taken + queue == old(taken + queue)
      ensures item == if old(queue) == [] then None else Some(old(queue)[0])
      ensures queue == if old(queue) == [] then [] else old(queue)[1..]
      ensures cursor == if item.Some? && item.value.Changed? then item.value.event.id else old(cursor)
    {
      ghost var s := taken + queue;
      item := Get(last);
      if item.Some? && item.value.Changed? {
        var raised := Acknowledge(item.value.event.id);
        assert !raised;
        forall i | 0 <= i < |queue| && queue[i].Changed?
          ensures cursor < queue[i].event.id
        {
          assert s[|taken| + i] == queue[i] && s[|taken| - 1] == item.value;
        }
      }
    }
  }

  class Session {
    const key: Key
    const max: nat
    const createdAt: real
    var events: seq<LiveChange>
    var nextId: nat
    var lastActivity: real
    var subscribers: map<string, LiveSubscription>
    /** Every event the session published. */
    ghost var history: seq<LiveChange>

    ghost function State(): Room
      reads this, subscribers.Values
    {
      Room(createdAt, lastActivity, events, nextId, history, subscribers, map id | id in subscribers :: subscribers[id].State())
    }

    ghost predicate Valid()
      reads this, subscribers.Values
    {
      ValidRoom(key, max, State())
    }

    constructor (key: Key, max: nat, now: real)
      requires max > 0
      ensures Valid() && State() == EmptyRoom(now)
      ensures this.key == key && this.max == max
    {
      this.key, this.max, createdAt, lastActivity, events, nextId, subscribers, history := key, max, now, now, [], 1, map[], [];
    }

    method Log(event: LiveChange)
      requires max > 0 && |events| <= max
      modifies this`events, this`nextId, this`history
      ensures State() == old(State()).(events := Kept(old(events) + [event], max), nextId := old(nextId) + 1,
                                       history := old(history) + [event])
    {
      nextId := nextId + 1;
      events := if |events| < max then events + [event] else (events + [event])[1..];
      history := history + [event];
    }

    /** The event is logged and offered to every subscriber. */
    method Publish(change: Change) returns (event: LiveChange)
      requires Valid()
      modifies this`events, this`nextId, this`history, subscribers.Values`queue
      ensures Valid() && event == LiveChange(|old(history)| + 1, change)
      ensures State() == WithEvent(old(State()), max, event)
    {
      hide ValidRoom, ValidSeat, SeatWith, Kept;
      event := LiveChange(nextId, change);
      RoomMeans(key, max, State());
      EventKeepsRoom(key, max, State(), change);
      Log(event);
      forall id | id in subscribers
        ensures subscribers[id].Valid(event.id - 1) && subscribers[id].cursor < event.id
      {
        assert old(State()).seats[id] == subscribers[id].State();
      }
      OfferAll(event);
      assert State().seats == WithEvent(old(State()), max, event).seats;
    }

    method OfferAll(event: LiveChange)
      requires Owned(key, subscribers) && event.id > 0
      requires forall id | id in subscribers :: subscribers[id].Valid(event.id - 1) && subscribers[id].cursor < event.id
      modifies subscribers.Values`queue
      ensures forall id | id in subscribers :: subscribers[id].State() == SeatWith(old(subscribers[id].State()), subscribers[id].size, event)
    {
      hide LiveSubscription.Valid;
      var todo := subscribers.Keys;
      while todo != {}
        invariant todo <= subscribers.Keys
        invariant forall id | id in todo :: subscribers[id].State() == old(subscribers[id].State())
        invariant forall id | id in subscribers && id !in todo ::
          subscribers[id].State() == SeatWith(old(subscribers[id].State()), subscribers[id].size, event)
        decreases |todo|
      {
        var id :| id in todo;
        subscribers[id].Offer(event);
        todo := todo - {id};
      }
    }

    method Touch(now: real)
      requires Valid()
      modifies this`lastActivity
      ensures Valid() && State() == old(State()).(lastActivity := now)
    {
      hide ValidSeat, History, Kept;
      lastActivity := now;
    }

    method Subscribe(id: string, size: nat) returns (subscription: LiveSubscription)
      requires Valid() && size > 0 && id !in subscribers
      modifies this`subscribers
      ensures fresh(subscription) && subscription.key == key && subscription.id == id && subscription.size == size
      ensures Valid() && State() == WithSubscription(old(State()), subscription)
    {
      hide ValidRoom;
      subscription := new LiveSubscription(key, id, size, |history|);
      SubscriptionKeepsRoom(key, max, State(), subscription);
      subscribers := subscribers[id := subscription];
      assert State().seats == WithSubscription(old(State()), subscription).seats;
    }

    method Unsubscribe(subscription: LiveSubscription)
      requires Valid() && subscription.key == key
      modifies this`subscribers, subscription`closed
      ensures Valid() && State() == WithoutSubscription(old(State()), subscription.id) && subscription.closed
    {
      hide ValidRoom, ValidSeat, LiveSubscription.State;
      ghost var before := State();
      RoomMeans(key, max, before);
      LeavingKeepsRoom(key, max, before, subscription.id);
      subscribers := Without(subscribers, subscription.id);
      assert forall id | id in subscribers :: subscribers[id].id == id && subscribers[id].State() == before.seats[id];
      subscription.closed := true;
      assert forall id | id in subscribers :: subscribers[id].State() == before.seats[id];
      assert State().seats == Without(before.seats, subscription.id);
    }

    method ReplayFrom(after: nat) returns (r: Replay)
      requires Valid()
      ensures Exact(State(), after, r)
    {
      if after <= |history| {
        ReplayIsExact(history, max, after);
      }
      var oldest := if events != [] then events[0].id else nextId;
      if after < oldest - 1 {
        return Gap;
      }
      var later: seq<LiveChange> := [];
      for i := 0 to |events|
        invariant later == Later(events[..i], after)
      {
        assert events[..i + 1][..i] == events[..i];
        if events[i].id > after {
          later := later + [events[i]];
        }
      }
      assert events[..|events|] == events;
      return Events(later);
    }
  }
}
