/** The live sessions of a service, held in memory: limits, revocation and expiry. */
module LiveService {
  import opened Text
  import opened LiveEvents
  import opened LiveLog
  import opened LiveSession

  datatype Error = LimitReached | NotLive | BadCursor | BadPath

  /** A signed cursor, which only the service can make: what it was issued for. */
  datatype Cursor = Cursor(key: Key, id: nat)

  datatype Found = Missing(error: Error) | There(session: Session)

  datatype Published = Rejected(error: Error) | Published(event: LiveChange)

  datatype Attached = Turned(error: Error) | Joined(subscription: LiveSubscription)

  datatype Replayed = Unanswered(error: Error) | Answer(replay: Replay)

  function Except<K, V>(m: map<K, V>, gone: set<K>): map<K, V> {
    map k | k in m && k !in gone :: m[k]
  }

  lemma ExceptNothing<K, V>(m: map<K, V>)
    ensures Except(m, {}) == m
  {
  }

  ghost predicate Parts<K>(all: set<K>, gone: set<K>, todo: set<K>) {
    gone !! todo && gone + todo == all
  }

  lemma NoneLeft<K>(all: set<K>, gone: set<K>)
    ensures Parts(all, gone, {}) <==> gone == all
    ensures Parts(all, {}, all)
  {
  }

  lemma OneMoreGone<K>(all: set<K>, gone: set<K>, todo: set<K>, key: K)
    requires Parts(all, gone, todo) && key in todo
    ensures Parts(all, gone + {key}, todo - {key}) && key in all && key !in gone
  {
  }

  lemma StillIn<K, V>(m: map<K, V>, gone: set<K>, key: K)
    requires key in m && key !in gone
    ensures key in Except(m, gone) && Except(m, gone)[key] == m[key]
    ensures Without(Except(m, gone), key) == Except(m, gone + {key})
  {
  }

  lemma Rotated<K>(order: seq<K>, key: K)
    requires order != [] && key !in order && forall i, j | 0 <= i < j < |order| :: order[i] != order[j]
    ensures var r := order[1..] + [key];
            && (forall k :: k in r <==> (k in order && k != order[0]) || k == key)
            && forall i, j | 0 <= i < j < |r| :: r[i] != r[j]
  {
    var first, rest := order[0], order[1..];
    assert order == [first] + rest;
    assert first !in rest;
  }

  /** The paths a change may carry. */
  predicate LivePath(path: string) {
    path != "" && path[0] == '/' && '\0' !in path && |path| <= 4096
  }

  /** `Rooms` is the state of the service: every call says what it makes of all of it. */
  class LiveFileService {
    const maxSessions: nat
    const maxSubscribers: nat
    const queueSize: nat
    const maxEvents: nat
    const idleTtl: real
    const maxAge: real
    var sessions: map<Key, Session>
    var revoked: map<Key, string>
    /** Insertion order of the revocations. */
    var revokedOrder: seq<Key>

    /** No key is both live and revoked, and every limit is kept. */
    ghost predicate Bounded(live: set<Key>, gone: map<Key, string>, order: seq<Key>) {
      && maxSessions > 0 && maxSubscribers > 0 && queueSize > 0 && maxEvents > 0
      && |live| <= maxSessions && |order| <= maxSessions * 4 && live !! gone.Keys
      && (forall k :: k in order <==> k in gone) && (forall i, j | 0 <= i < j < |order| :: order[i] != order[j])
    }

    /** Sessions stand under their own keys. */
    ghost predicate Keyed(sessions: map<Key, Session>) {
      forall k | k in sessions :: sessions[k].key == k && sessions[k].max == maxEvents
    }

    ghost predicate Sound(key: Key, r: Room) {
      ValidRoom(key, maxEvents, r) && |r.subscribers| <= maxSubscribers
    }

    ghost predicate AllSound(rooms: map<Key, Room>) {
      forall k | k in rooms :: Sound(k, rooms[k])
    }

    lemma EventIsSound(rooms: map<Key, Room>, key: Key, event: LiveChange)
      requires AllSound(rooms) && key in rooms && event.id == rooms[key].nextId
      ensures AllSound(rooms[key := WithEvent(rooms[key], maxEvents, event)])
    {
      hide ValidRoom, WithEvent;
      assert Sound(key, rooms[key]);
      EventKeepsRoom(key, maxEvents, rooms[key], event.change);
      EventKeepsSubscribers(rooms[key], maxEvents, event);
      StillAllSound(rooms, key, WithEvent(rooms[key], maxEvents, event));
    }

    lemma NextIdIs(rooms: map<Key, Room>, key: Key)
      requires AllSound(rooms) && key in rooms
      ensures rooms[key].nextId == |rooms[key].history| + 1
    {
      hide ValidSeat;
      assert Sound(key, rooms[key]);
    }

    lemma SubscriptionIsSound(rooms: map<Key, Room>, key: Key, s: LiveSubscription)
      requires AllSound(rooms) && key in rooms && s.key == key && s.size > 0 && |rooms[key].subscribers| < maxSubscribers
      ensures AllSound(rooms[key := WithSubscription(rooms[key], s)])
    {
      hide ValidRoom;
      assert Sound(key, rooms[key]);
      SubscriptionKeepsRoom(key, maxEvents, rooms[key], s);
      AddGrows(rooms[key].subscribers, s.id, s);
      StillAllSound(rooms, key, WithSubscription(rooms[key], s));
    }

    lemma LeavingIsSound(rooms: map<Key, Room>, key: Key, id: string)
      requires AllSound(rooms) && key in rooms
      ensures AllSound(rooms[key := WithoutSubscription(rooms[key], id)])
    {
      hide ValidRoom, Without;
      assert Sound(key, rooms[key]);
      LeavingKeepsRoom(key, maxEvents, rooms[key], id);
      DropShrinks(rooms[key].subscribers, id);
      StillAllSound(rooms, key, WithoutSubscription(rooms[key], id));
    }

    lemma DropKeepsSound(sessions: map<Key, Session>, rooms: map<Key, Room>, key: Key)
      requires Keyed(sessions) && AllSound(rooms)
      ensures Keyed(Without(sessions, key)) && AllSound(Without(rooms, key)) && Without(sessions, key).Keys == sessions.Keys - {key}
    {
      hide Sound;
    }

    lemma StillAllSound(rooms: map<Key, Room>, key: Key, r: Room)
      requires AllSound(rooms) && Sound(key, r)
      ensures AllSound(rooms[key := r])
    {
      hide Sound;
    }

    ghost function Subscriptions(): set<LiveSubscription>
      reads `sessions, sessions.Values
    {
      set k, id | k in sessions && id in sessions[k].subscribers :: sessions[k].subscribers[id]
    }

    /** The state of the service: what stands under each key. */
    ghost function Rooms(): (rooms: map<Key, Room>)
      reads `sessions, sessions.Values, Subscriptions()
      ensures rooms.Keys == sessions.Keys
    {
      map k | k in sessions :: sessions[k].State()
    }

    /** What the session of a key has published so far. */
    ghost function HistoryOf(key: Key): seq<LiveChange>
      reads `sessions, sessions.Values
    {
      if key in sessions then sessions[key].history else []
    }

    lemma HistoryIs(key: Key)
      ensures HistoryOf(key) == if key in Rooms() then Rooms()[key].history else []
    {
    }

    lemma SubscribersAre(key: Key)
      requires key in sessions
      ensures Rooms()[key].subscribers == sessions[key].subscribers
    {
    }

    lemma SessionIsValid(key: Key)
      requires Valid() && key in sessions
      ensures sessions[key].Valid() && Rooms()[key] == sessions[key].State()
    {
      hide Bounded, ValidRoom;
      assert Sound(key, Rooms()[key]);
    }

    ghost function SubscriptionsOf(key: Key): set<LiveSubscription>
      reads `sessions, sessions.Values
    {
      if key in sessions then sessions[key].subscribers.Values else {}
    }

    ghost function AllObjects(): set<object>
      reads `sessions, sessions.Values
    {
      set k, o | k in sessions && o in Objects(k) :: o
    }

    lemma RoomsAre(rooms: map<Key, Room>)
      requires rooms.Keys == sessions.Keys && forall k | k in sessions :: sessions[k].State() == rooms[k]
      ensures Rooms() == rooms
    {
      hide Session.State;
    }

    lemma RoomsAt()
      ensures forall k | k in sessions :: Rooms()[k] == sessions[k].State()
    {
      hide Session.State;
    }

    ghost predicate Valid()
      reads this, sessions.Values, Subscriptions()
    {
      Bounded(sessions.Keys, revoked, revokedOrder) && Keyed(sessions) && AllSound(Rooms())
    }

    lemma ValidMeans()
      requires Valid()
      ensures Bounded(sessions.Keys, revoked, revokedOrder) && Keyed(sessions) && AllSound(Rooms())
    {
      hide Bounded, Keyed, AllSound, Rooms;
    }

    lemma ValidIs()
      requires Bounded(sessions.Keys, revoked, revokedOrder) && Keyed(sessions) && AllSound(Rooms())
      ensures Valid()
    {
      hide Bounded, Keyed, AllSound, Rooms;
    }

    ghost function Objects(key: Key): set<object>
      reads `sessions, sessions.Values
    {
      if key in sessions then {sessions[key]} + set id | id in sessions[key].subscribers :: sessions[key].subscribers[id] else {}
    }

    /** The room of a key once `_session` has looked it up. */
    ghost function Entered(rooms: map<Key, Room>, key: Key, now: real): Room {
      if key in rooms then rooms[key].(lastActivity := now) else EmptyRoom(now)
    }

    lemma EnteredIsSound(rooms: map<Key, Room>, key: Key, now: real)
      requires AllSound(rooms) && maxEvents > 0
      ensures Sound(key, Entered(rooms, key, now)) && AllSound(rooms[key := Entered(rooms, key, now)])
    {
      hide ValidSeat;
      assert key in rooms ==> Sound(key, rooms[key]);
      assert Sound(key, Entered(rooms, key, now));
      StillAllSound(rooms, key, Entered(rooms, key, now));
    }

    /** No session or subscription of one key is another's. */
    lemma Apart(key: Key)
      requires Keyed(sessions) && AllSound(Rooms())
      ensures forall k | k in sessions && k != key :: sessions[k].key != key
      ensures forall k, id | k in sessions && k != key && id in sessions[k].subscribers :: sessions[k].subscribers[id].key != key
      ensures key in sessions ==> sessions[key].Valid() && sessions[key].key == key && sessions[key].max == maxEvents
      ensures key in sessions ==> Owned(key, sessions[key].subscribers)
    {
      hide ValidRoom;
      forall k | k in sessions
        ensures Owned(k, sessions[k].subscribers) && sessions[k].Valid()
      {
        assert Sound(k, Rooms()[k]);
        RoomMeans(k, maxEvents, sessions[k].State());
      }
    }

    constructor (maxSessions: nat, maxSubscribers: nat, queueSize: nat, maxEvents: nat, idleTtl: real, maxAge: real)
      requires maxSessions > 0 && maxSubscribers > 0 && queueSize > 0 && maxEvents > 0
      ensures Valid() && sessions == map[] && revoked == map[]
    {
      this.maxSessions, this.maxSubscribers, this.queueSize, this.maxEvents := maxSessions, maxSubscribers, queueSize, maxEvents;
      this.idleTtl, this.maxAge, sessions, revoked, revokedOrder := idleTtl, maxAge, map[], map[], [];
    }

    lemma Positive(live: set<Key>, gone: map<Key, string>, order: seq<Key>)
      requires Bounded(live, gone, order)
      ensures maxSessions > 0 && maxSubscribers > 0 && queueSize > 0 && maxEvents > 0 && |order| <= maxSessions * 4
    {
    }

    lemma BoundedAdd(live: set<Key>, key: Key, gone: map<Key, string>, order: seq<Key>)
      requires Bounded(live, gone, order) && key !in gone && |live| < maxSessions
      ensures Bounded(live + {key}, gone, order) && maxEvents > 0
    {
    }

    lemma LiveNotGone(live: set<Key>, gone: map<Key, string>, order: seq<Key>, key: Key)
      requires Bounded(live, gone, order) && key in gone
      ensures key !in live
    {
    }

    method Enlist(session: Session)
      modifies this`sessions
      ensures sessions == old(sessions)[session.key := session] && Rooms() == old(Rooms())[session.key := session.State()]
      ensures session.subscribers == map[] ==> Objects(session.key) == {session}
    {
      hide Session.State;
      sessions := sessions[session.key := session];
      assert (sessions.Keys == old(sessions).Keys + {session.key});
    }

    method NewSession(key: Key, now: real) returns (session: Session)
      requires maxEvents > 0
      ensures fresh(session) && session.key == key && session.max == maxEvents && session.State() == EmptyRoom(now)
      ensures session.subscribers == map[] && Rooms() == old(Rooms())
    {
      session := new Session(key, maxEvents, now);
    }

    method OpenSession(key: Key, now: real) returns (session: Session)
      requires Valid() && key !in sessions && key !in revoked && |sessions.Keys| < maxSessions
      modifies this`sessions
      ensures Valid() && Rooms() == old(Rooms())[key := EmptyRoom(now)]
      ensures sessions == old(sessions)[key := session] && fresh(session) && Objects(key) == {session}
    {
      hide Valid, Bounded, Keyed, AllSound, Session.State, Rooms;
      ValidMeans();
      Positive(sessions.Keys, revoked, revokedOrder);
      BoundedAdd(sessions.Keys, key, revoked, revokedOrder);
      EnteredIsSound(Rooms(), key, now);
      session := NewSession(key, now);
      KeyedAdd(sessions, key, session);
      Enlist(session);
      ValidIs();
    }

    lemma KeyedAdd(sessions: map<Key, Session>, key: Key, session: Session)
      requires Keyed(sessions) && session.key == key && session.max == maxEvents
      ensures Keyed(sessions[key := session]) && (sessions[key := session]).Keys == sessions.Keys + {key}
    {
    }

    /** Why `_session` finds none. */
    predicate Absent(key: Key, create: bool)
      reads this
    {
      key in revoked || (key !in sessions && (!create || |sessions.Keys| >= maxSessions))
    }

    // One session at a time: the others keep their state

    method TouchAt(key: Key, now: real)
      requires Valid() && key in sessions
      modifies Objects(key)
      ensures unchanged(this) && Objects(key) == old(Objects(key))
      ensures Rooms() == old(Rooms())[key := Entered(old(Rooms()), key, now)]
    {
      hide ValidRoom, Bounded, AllSound, Rooms, Session.State;
      ghost var rooms := Rooms();
      ValidMeans();
      Apart(key);
      RoomsAt();
      sessions[key].Touch(now);
      RoomsAre(rooms[key := Entered(rooms, key, now)]);
    }

    method PublishAt(key: Key, change: Change) returns (event: LiveChange)
      requires Valid() && key in sessions
      modifies Objects(key)
      ensures unchanged(this) && event == LiveChange(|old(HistoryOf(key))| + 1, change)
      ensures Rooms() == old(Rooms())[key := WithEvent(old(Rooms())[key], maxEvents, event)]
    {
      hide Valid, ValidRoom, AllSound, Keyed, Bounded, WithEvent, Rooms, Session.State;
      ghost var rooms := Rooms();
      ValidMeans();
      Apart(key);
      RoomsAt();
      event := sessions[key].Publish(change);
      RoomsAre(rooms[key := WithEvent(rooms[key], maxEvents, event)]);
    }

    method SubscribeAt(key: Key, id: string) returns (subscription: LiveSubscription)
      requires Valid() && key in sessions && id !in sessions[key].subscribers && queueSize > 0
      modifies Objects(key)
      ensures unchanged(this) && fresh(subscription) && subscription.key == key && subscription.id == id && subscription.size == queueSize
      ensures Rooms() == old(Rooms())[key := WithSubscription(old(Rooms())[key], subscription)]
    {
      hide ValidRoom, Bounded, AllSound, WithSubscription, Rooms;
      ghost var rooms := Rooms();
      ValidMeans();
      Apart(key);
      RoomsAt();
      subscription := sessions[key].Subscribe(id, queueSize);
      RoomsAre(rooms[key := WithSubscription(rooms[key], subscription)]);
    }

    method UnsubscribeAt(subscription: LiveSubscription)
      requires Valid() && subscription.key in sessions
      modifies Objects(subscription.key), subscription
      ensures unchanged(this) && subscription.closed
      ensures var key := subscription.key; Rooms() == old(Rooms())[key := WithoutSubscription(old(Rooms())[key], subscription.id)]
    {
      hide ValidRoom, Bounded, AllSound, WithoutSubscription, Rooms, Session.State;
      ghost var rooms := Rooms();
      ValidMeans();
      Apart(subscription.key);
      RoomsAt();
      sessions[subscription.key].Unsubscribe(subscription);
      RoomsAre(rooms[subscription.key := WithoutSubscription(rooms[subscription.key], subscription.id)]);
    }

    method ReplayAt(key: Key, after: nat) returns (r: Replay)
      requires Valid() && key in sessions
      ensures Rooms() == old(Rooms()) && Exact(Rooms()[key], after, r)
    {
      hide ValidRoom, Bounded, AllSound, Exact;
      SessionIsValid(key);
      r := sessions[key].ReplayFrom(after);
      assert forall k | k in sessions :: sessions[k].State() == old(Rooms()[k]);
    }

    // The calls

    /** A session has come under a new key, and nothing else. */
    ghost predicate NewAt(before: map<Key, Session>, key: Key)
      reads `sessions
    {
      key in sessions && sessions == before[key := sessions[key]]
    }

    /** `_session`: looks a session up, making it if asked, and notes the activity. */
    method FindSession(key: Key, create: bool, now: real) returns (r: Found)
      requires Valid()
      modifies this`sessions, Objects(key)
      ensures Valid()
      ensures r.Missing? <==> key in old(revoked) || (key !in old(sessions) && (!create || |old(sessions).Keys| >= maxSessions))
      ensures r.Missing? ==> Rooms() == old(Rooms()) && r.error == if key !in revoked && create then LimitReached else NotLive
      ensures r.There? ==> Rooms() == old(Rooms())[key := Entered(old(Rooms()), key, now)]
      ensures r.There? ==> key in sessions && sessions[key] == r.session && fresh(Objects(key) - old(Objects(key)))
      ensures sessions == old(sessions) || (key !in old(sessions) && NewAt(old(sessions), key) && fresh(sessions[key]))
    {
      hide Valid, Bounded, Keyed, AllSound, Session.State, Rooms, Entered, Objects;
      ValidMeans();
      Positive(sessions.Keys, revoked, revokedOrder);
      if key in revoked {
        LiveNotGone(sessions.Keys, revoked, revokedOrder, key);
        return Missing(NotLive);
      }
      if key in sessions {
        EnteredIsSound(Rooms(), key, now);
        TouchAt(key, now);
        ValidIs();
        return There(sessions[key]);
      }
      if !create {
        return Missing(NotLive);
      }
      if |sessions.Keys| >= maxSessions {
        return Missing(LimitReached);
      }
      EnteredNew(Rooms(), key, now);
      var session := OpenSession(key, now);
      return There(session);
    }

    lemma EnteredKeeps(rooms: map<Key, Room>, key: Key, now: real)
      ensures Entered(rooms, key, now).history == if key in rooms then rooms[key].history else []
      ensures Entered(rooms, key, now).subscribers == if key in rooms then rooms[key].subscribers else map[]
    {
    }

    lemma EnteredOld(rooms: map<Key, Room>, key: Key, now: real)
      requires key in rooms
      ensures Entered(rooms, key, now) == rooms[key].(lastActivity := now)
    {
    }

    lemma EnteredNew(rooms: map<Key, Room>, key: Key, now: real)
      requires key !in rooms
      ensures Entered(rooms, key, now) == EmptyRoom(now)
    {
    }

    /** The event goes to this session's log and to all its subscribers, and nothing of another key changes. */
    method PublishChange(key: Key, change: Change, now: real) returns (r: Published)
      requires Valid()
      modifies this`sessions, Objects(key)
      ensures Valid()
      ensures sessions == old(sessions) || (key !in old(sessions) && NewAt(old(sessions), key) && fresh(sessions[key]))
      ensures r.Rejected? <==> old(Absent(key, true)) || change.path == "" || change.path[0] != '/' || '\0' in change.path
                               || |change.path| > 4096
      ensures r.Rejected? ==> Rooms() == old(Rooms())
      ensures r.Published? ==> r.event == LiveChange(|old(HistoryOf(key))| + 1, change)
      ensures r.Published? ==> Rooms() == old(Rooms())[key := WithEvent(Entered(old(Rooms()), key, now), maxEvents, r.event)]
    {
      hide Valid, Bounded, Keyed, AllSound, Sound, Session.State, Rooms, WithEvent, Entered, HistoryOf, Objects;
      if !LivePath(change.path) {
        return Rejected(BadPath);
      }
      HistoryIs(key);
      EnteredKeeps(Rooms(), key, now);
      var found := FindSession(key, true, now);
      if found.Missing? {
        return Rejected(found.error);
      }
      HistoryIs(key);
      ValidMeans();
      NextIdIs(Rooms(), key);
      EventIsSound(Rooms(), key, LiveChange(|HistoryOf(key)| + 1, change));
      var event := PublishAt(key, change);
      ValidIs();
      return Published(event);
    }

    /** `id` is random, and drawn again while it is taken. */
    method Attach(key: Key, now: real, id: string) returns (r: Attached)
      requires Valid() && (key in sessions ==> id !in sessions[key].subscribers)
      modifies this`sessions, Objects(key)
      ensures Valid()
      ensures sessions == old(sessions) || (key !in old(sessions) && NewAt(old(sessions), key) && fresh(sessions[key]))
      ensures r.Turned? <==> old(Absent(key, true)) || |Entered(old(Rooms()), key, now).subscribers| >= maxSubscribers
      ensures r.Turned? ==> Rooms() == if old(Absent(key, true)) then old(Rooms()) else old(Rooms())[key := Entered(old(Rooms()), key, now)]
      ensures r.Joined? ==> fresh(r.subscription) && r.subscription.key == key && r.subscription.id == id && r.subscription.size == queueSize
      ensures r.Joined? ==> Rooms() == old(Rooms())[key := WithSubscription(Entered(old(Rooms()), key, now), r.subscription)]
    {
      hide Valid, Bounded, Keyed, AllSound, Sound, Session.State, Rooms, WithSubscription, Entered, Objects;
      EnteredKeeps(Rooms(), key, now);
      if key in sessions {
        SubscribersAre(key);
      }
      var found := FindSession(key, true, now);
      if found.Missing? {
        return Turned(found.error);
      }
      SubscribersAre(key);
      if |found.session.subscribers| >= maxSubscribers {
        return Turned(LimitReached);
      }
      ValidMeans();
      Positive(sessions.Keys, revoked, revokedOrder);
      ghost var rooms := Rooms();
      var subscription := SubscribeAt(key, id);
      SubscriptionIsSound(rooms, key, subscription);
      ValidIs();
      return Joined(subscription);
    }

    /** `replay`: a cursor must have been issued for this key. */
    method Replay(key: Key, cursor: Option<Cursor>, now: real) returns (r: Replayed)
      requires Valid()
      modifies this`sessions, Objects(key)
      ensures Valid()
      ensures sessions == old(sessions)
      ensures r.Unanswered? <==> old(Absent(key, false)) || (cursor.Some? && cursor.value.key != key)
      ensures r.Unanswered? ==> r.error == if old(Absent(key, false)) then NotLive else BadCursor
      ensures Rooms() == if old(Absent(key, false)) then old(Rooms()) else old(Rooms())[key := Entered(old(Rooms()), key, now)]
      // From a cursor this session issued: every later event in order, or a resync exactly when the next one was evicted.
      ensures r.Answer? ==> key in Rooms() && Exact(Rooms()[key], if cursor.Some? then cursor.value.id else 0, r.replay)
    {
      hide Valid, Bounded, Keyed, AllSound, Sound, Session.State, Rooms, Entered;
      var found := FindSession(key, false, now);
      if found.Missing? {
        return Unanswered(found.error);
      }
      if cursor.Some? && cursor.value.key != key {
        return Unanswered(BadCursor);
      }
      var after := if cursor.Some? then cursor.value.id else 0;
      ValidMeans();
      var replay := ReplayAt(key, after);
      ValidIs();
      return Answer(replay);
    }

    /** `_detach`: a session that has ended is let be. */
    method Detach(subscription: LiveSubscription)
      requires Valid()
      modifies Objects(subscription.key), if subscription.key in sessions then {subscription} else {}
      ensures Valid()
      ensures var key := subscription.key;
              if key in old(sessions)
              then subscription.closed && Rooms() == old(Rooms())[key := WithoutSubscription(old(Rooms())[key], subscription.id)]
              else Rooms() == old(Rooms())
    {
      hide Valid, Bounded, Keyed, AllSound, Sound, Session.State, Rooms, WithoutSubscription;
      if subscription.key in sessions {
        ValidMeans();
        LeavingIsSound(Rooms(), subscription.key, subscription.id);
        UnsubscribeAt(subscription);
        ValidIs();
      }
    }

    lemma BoundedDrop(live: set<Key>, key: Key, gone: map<Key, string>, order: seq<Key>, reason: string)
      requires Bounded(live, gone, order) && key in gone
      ensures Bounded(live - {key}, gone[key := reason], order)
    {
    }

    lemma BoundedAppend(live: set<Key>, key: Key, gone: map<Key, string>, order: seq<Key>, reason: string)
      requires Bounded(live, gone, order) && key !in gone && |order| < maxSessions * 4
      ensures Bounded(live - {key}, gone[key := reason], order + [key])
    {
      assert key !in order;
    }

    lemma BoundedRotate(live: set<Key>, key: Key, gone: map<Key, string>, order: seq<Key>, reason: string)
      requires Bounded(live, gone, order) && key !in gone && |order| == maxSessions * 4
      ensures order[0] in gone && order[0] != key
      ensures Bounded(live - {key}, gone[key := reason] - {order[0]}, order[1..] + [key])
    {
      assert order[0] in order;
      Rotated(order, key);
    }

    /** `_revoked[key] = reason`, forgetting the oldest of too many. */
    method Revoke(key: Key, reason: string, ghost live: set<Key>)
      requires Bounded(live, revoked, revokedOrder)
      modifies this`revoked, this`revokedOrder
      ensures Bounded(live - {key}, revoked, revokedOrder)
      ensures key in revoked && revoked[key] == reason
      ensures forall k | k in revoked && k != key :: k in old(revoked) && revoked[k] == old(revoked)[k]
      ensures forall k | k in old(revoked) && k !in revoked :: |old(revokedOrder)| == maxSessions * 4 && k == old(revokedOrder)[0]
    {
      hide Bounded;
      Positive(live, revoked, revokedOrder);
      if key in revoked {
        BoundedDrop(live, key, revoked, revokedOrder, reason);
      } else if |revokedOrder| < maxSessions * 4 {
        BoundedAppend(live, key, revoked, revokedOrder, reason);
      } else {
        BoundedRotate(live, key, revoked, revokedOrder, reason);
      }
      if key !in revoked {
        revokedOrder := revokedOrder + [key];
      }
      revoked := revoked[key := reason];
      if |revokedOrder| > maxSessions * 4 {
        revoked := revoked - {revokedOrder[0]};
        revokedOrder := revokedOrder[1..];
        assert revokedOrder == old(revokedOrder)[1..] + [key];
      }
    }

    method Refuse(key: Key, reason: string, ghost live: set<Key>)
      requires Bounded(live, revoked, revokedOrder)
      modifies this`revoked, this`revokedOrder
      ensures Bounded(live - {key}, revoked, revokedOrder) && Rooms() == old(Rooms())
      ensures key in revoked && revoked[key] == reason
      ensures forall k | k in revoked && k != key :: k in old(revoked) && revoked[k] == old(revoked)[k]
      ensures forall k | k in old(revoked) && k !in revoked :: |old(revokedOrder)| == maxSessions * 4 && k == old(revokedOrder)[0]
    {
      hide Bounded;
      Revoke(key, reason, live);
    }

    method Unlist(key: Key)
      modifies this`sessions
      ensures sessions == Without(old(sessions), key) && Rooms() == Without(old(Rooms()), key)
    {
      hide Session.State;
      sessions := Without(sessions, key);
    }

    /** Closing a session that is listed no more. */
    method CloseRoom(session: Session)
      requires Keyed(sessions) && AllSound(Rooms()) && session.key !in sessions && Owned(session.key, session.subscribers)
      modifies session, session.subscribers.Values
      ensures Rooms() == old(Rooms()) && forall s | s in old(session.subscribers.Values) :: s.closed
    {
      hide ValidRoom, AllSound, Rooms;
      ghost var rooms := Rooms();
      Apart(session.key);
      RoomsAt();
      CloseAll(session);
      RoomsAre(rooms);
    }

    lemma OwnedAt(key: Key)
      requires Keyed(sessions) && AllSound(Rooms()) && key in sessions
      ensures sessions[key].key == key && Owned(key, sessions[key].subscribers)
    {
      hide ValidRoom, AllSound;
      Apart(key);
    }

    /** The session ends with its subscriptions, and its key is refused from now on. */
    method Invalidate(key: Key, reason: string) returns (ended: bool)
      requires Valid()
      modifies this`sessions, this`revoked, this`revokedOrder, Objects(key)
      ensures Valid() && Rooms() == Without(old(Rooms()), key) && ended == (key in old(sessions))
      ensures sessions == Without(old(sessions), key)
      ensures key in revoked && revoked[key] == reason
      ensures forall k | k in revoked && k != key :: k in old(revoked) && revoked[k] == old(revoked)[k]
      ensures forall k | k in old(revoked) && k !in revoked :: |old(revokedOrder)| == maxSessions * 4 && k == old(revokedOrder)[0]
      ensures forall s | s in old(SubscriptionsOf(key)) :: s.closed
    {
      hide Valid, Bounded, Keyed, AllSound, Sound, Session.State, Rooms;
      ValidMeans();
      DropKeepsSound(sessions, Rooms(), key);
      ghost var live := sessions.Keys;
      ended := key in sessions;
      if ended {
        OwnedAt(key);
        var session := sessions[key];
        Unlist(key);
        Refuse(key, reason, live);
        CloseRoom(session);
      } else {
        Unlist(key);
        Refuse(key, reason, live);
      }
      ValidIs();
    }

    method CloseAll(session: Session)
      modifies session`subscribers, session.subscribers.Values`closed
      ensures session.subscribers == map[]
      ensures forall id | id in old(session.subscribers) :: old(session.subscribers)[id].closed
    {
      var items := session.subscribers;
      session.subscribers := map[];
      var todo := items.Keys;
      while todo != {}
        invariant todo <= items.Keys && session.subscribers == map[]
        invariant forall id | id in items && id !in todo :: items[id].closed
        decreases |todo|
      {
        var id :| id in todo;
        items[id].closed := true;
        todo := todo - {id};
      }
    }

    /** Too old, or idle without subscribers. */
    predicate IsExpired(session: Session, now: real)
      reads session
    {
      now - session.createdAt >= maxAge || (session.subscribers == map[] && now - session.lastActivity >= idleTtl)
    }

    ghost predicate RoomExpired(r: Room, now: real) {
      now - r.createdAt >= maxAge || (r.subscribers == map[] && now - r.lastActivity >= idleTtl)
    }

    ghost function ExpiredKeys(rooms: map<Key, Room>, now: real): set<Key> {
      set k | k in rooms && RoomExpired(rooms[k], now)
    }

    lemma ExpiredAre(now: real)
      ensures ExpiredKeys(Rooms(), now) == set k | k in sessions && IsExpired(sessions[k], now)
    {
    }

    /** What a session owns. */
    ghost function Belongings(session: Session, subscribers: map<string, LiveSubscription>): set<object> {
      {session} + set id | id in subscribers :: subscribers[id]
    }

    lemma BelongingsGrow(session: Session, subscribers: map<string, LiveSubscription>, s: LiveSubscription)
      ensures Belongings(session, subscribers[s.id := s]) <= Belongings(session, subscribers) + {s}
    {
    }

    lemma BelongingsOfNew(session: Session)
      ensures Belongings(session, map[]) == {session}
    {
    }

    lemma ObjectsAre(key: Key)
      ensures Objects(key) == if key in Rooms() then Belongings(sessions[key], Rooms()[key].subscribers) else {}
    {
    }

    ghost predicate AllClosed(rooms: map<Key, Room>, keys: set<Key>)
      reads set k, id | k in keys && k in rooms && id in rooms[k].subscribers :: rooms[k].subscribers[id]
    {
      forall k, id | k in keys && k in rooms && id in rooms[k].subscribers :: rooms[k].subscribers[id].closed
    }

    lemma NoneClosed(rooms: map<Key, Room>)
      ensures AllClosed(rooms, {})
    {
    }

    ghost predicate AllOwned(rooms: map<Key, Room>) {
      forall k | k in rooms :: Owned(k, rooms[k].subscribers)
    }

    lemma RoomsAreOwned()
      requires Valid()
      ensures AllOwned(Rooms())
    {
      hide Bounded, ValidRoom;
      forall k | k in Rooms()
        ensures Owned(k, Rooms()[k].subscribers)
      {
        assert Sound(k, Rooms()[k]);
        RoomMeans(k, maxEvents, Rooms()[k]);
      }
    }

    /** One more session ends, and those that ended stay closed. */
    method Expire(key: Key, ghost rooms: map<Key, Room>, ghost gone: set<Key>)
      requires Valid() && key in sessions && key !in gone && AllOwned(rooms) && AllClosed(rooms, gone)
      requires key in rooms && Rooms()[key] == rooms[key]
      modifies this`sessions, this`revoked, this`revokedOrder, Objects(key)
      ensures Valid() && sessions == Without(old(sessions), key) && Rooms() == Without(old(Rooms()), key)
      ensures AllClosed(rooms, gone + {key})
    {
      hide Valid, Bounded, Rooms, Session.State;
      ObjectsAre(key);
      var _ := Invalidate(key, "expired");
    }

    /** Exactly the expired sessions end, and nothing of any other changes. */
    method Reap(now: real) returns (count: nat)
      requires Valid()
      modifies this`sessions, this`revoked, this`revokedOrder, AllObjects()
      ensures Valid() && count == |ExpiredKeys(old(Rooms()), now)|
      ensures Rooms() == Except(old(Rooms()), ExpiredKeys(old(Rooms()), now))
      ensures AllClosed(old(Rooms()), ExpiredKeys(old(Rooms()), now))
    {
      hide Valid, Rooms, Objects, Session.State, Belongings, AllOwned, AllClosed, RoomExpired, IsExpired, Except, Without, Parts;
      ghost var before, rooms, all := sessions, Rooms(), AllObjects();
      forall k | k in sessions
        ensures Belongings(before[k], rooms[k].subscribers) <= all
      {
        ObjectsAre(k);
      }
      ExpiredAre(now);
      var expired := set k | k in sessions && IsExpired(sessions[k], now);
      count := |expired|;
      var todo := expired;
      ghost var gone: set<Key> := {};
      ExceptNothing(before);
      ExceptNothing(rooms);
      RoomsAreOwned();
      NoneClosed(rooms);
      NoneLeft(expired, gone);
      while todo != {}
        invariant Parts(expired, gone, todo) && Valid()
        invariant sessions == Except(before, gone) && Rooms() == Except(rooms, gone) && AllClosed(rooms, gone)
        decreases |todo|
      {
        var key :| key in todo;
        OneMoreGone(expired, gone, todo, key);
        StillIn(before, gone, key);
        StillIn(rooms, gone, key);
        ObjectsAre(key);
        Expire(key, rooms, gone);
        todo, gone := todo - {key}, gone + {key};
      }
      NoneLeft(expired, gone);
    }
    lemma LiveIsNotRevoked(key: Key)
      requires Valid() && key in sessions
      ensures key !in revoked
    {
      hide AllSound, Keyed, Rooms;
    }

    lemma SeatIs(key: Key, id: string)
      requires key in Rooms() && id in Rooms()[key].subscribers
      ensures id in Rooms()[key].seats && Rooms()[key].seats[id] == Rooms()[key].subscribers[id].State()
    {
    }
  }

  lemma WithSubscriptionIs(e: Room, s: LiveSubscription)
    ensures WithSubscription(e, s).subscribers == e.subscribers[s.id := s]
  {
  }

  ghost predicate NewlyIn(r: Room, s: LiveSubscription) {
    s.id in r.subscribers && r.subscribers[s.id] == s && s.id in r.seats && r.seats[s.id] == Seat([], [], 0, false)
  }

  /** Joining and being looked up change nothing of what is replayed. */
  lemma JoinedRoom(e: Room, s: LiveSubscription, now: real)
    ensures var r := WithSubscription(e, s).(lastActivity := now);
            && r.history == e.history && NewlyIn(r, s)
            && forall after: nat, replay :: Exact(r, after, replay) <==> Exact(e, after, replay)
  {
  }

  lemma SeatAfter(r: Room, max: nat, event: LiveChange, id: string)
    requires id in r.subscribers && id in r.seats
    ensures WithEvent(r, max, event).subscribers == r.subscribers && id in WithEvent(r, max, event).seats
    ensures WithEvent(r, max, event).seats[id] == SeatWith(r.seats[id], r.subscribers[id].size, event)
  {
    hide SeatWith;
  }

  lemma FirstOffered(size: nat, event: LiveChange)
    requires size > 0
    ensures SeatWith(Seat([], [], 0, false), size, event).queue == [Changed(event)]
  {
  }

  /** An event reaches every subscription of its key. */
  method PublishTo(service: LiveFileService, key: Key, s: LiveSubscription, change: Change, now: real) returns (r: Published)
    requires service.Valid() && key in service.Rooms()
    requires s.id in service.Rooms()[key].subscribers && service.Rooms()[key].subscribers[s.id] == s
    modifies service`sessions, service.Objects(key)
    ensures service.Valid()
    ensures r.Published? ==> s.State() == SeatWith(old(s.State()), s.size, r.event)
    ensures r.Published? ==> r.event == LiveChange(|old(service.HistoryOf(key))| + 1, change)
  {
    hide LiveFileService.Valid, LiveFileService.Rooms, LiveFileService.Objects, LiveFileService.HistoryOf, LiveFileService.Entered,
      WithEvent, SeatWith, LiveSubscription.State;
    ghost var room := service.Entered(service.Rooms(), key, now);
    service.EnteredOld(service.Rooms(), key, now);
    service.SeatIs(key, s.id);
    r := service.PublishChange(key, change, now);
    if r.Published? {
      SeatAfter(room, service.maxEvents, r.event, s.id);
      service.SeatIs(key, s.id);
    }
  }

  /** Attaching: what the key owns afterwards is what it owned before and what is new. */
  method Join(service: LiveFileService, mine: Key, now: real, id: string) returns (attached: Attached)
    requires service.Valid() && (mine in service.sessions ==> id !in service.sessions[mine].subscribers)
    modifies service`sessions, service.Objects(mine)
    ensures service.Valid()
    ensures service.sessions == old(service.sessions) || service.NewAt(old(service.sessions), mine)
    ensures attached.Joined? ==> fresh(service.Objects(mine) - old(service.Objects(mine)))
    ensures attached.Joined? ==> attached.subscription.id == id && attached.subscription.size == service.queueSize
    ensures attached.Joined? ==>
      service.Rooms() == old(service.Rooms())[mine := WithSubscription(service.Entered(old(service.Rooms()), mine, now), attached.subscription)]
  {
    hide LiveFileService.Valid, LiveFileService.Rooms, LiveFileService.Objects, LiveFileService.Belongings,
      LiveFileService.Entered, WithSubscription, LiveSubscription.State;
    ghost var room := service.Entered(service.Rooms(), mine, now);
    service.EnteredKeeps(service.Rooms(), mine, now);
    service.ObjectsAre(mine);
    attached := service.Attach(mine, now, id);
    if attached.Joined? {
      service.ObjectsAre(mine);
      service.BelongingsOfNew(service.sessions[mine]);
      service.BelongingsGrow(service.sessions[mine], room.subscribers, attached.subscription);
      WithSubscriptionIs(room, attached.subscription);
    }
  }

  /** Another key's event leaves a new subscription's room as it was. */
  method JoinBesides(service: LiveFileService, mine: Key, other: Key, foreign: Change, now: real, id: string)
    returns (attached: Attached, reached: Published)
    requires service.Valid() && mine != other && (mine in service.sessions ==> id !in service.sessions[mine].subscribers)
    modifies service`sessions, service.Objects(mine), service.Objects(other)
    ensures service.Valid()
    ensures attached.Joined? ==> fresh(service.Objects(mine) - old(service.Objects(mine)))
    ensures attached.Joined? ==> mine in service.Rooms() && attached.subscription.id == id && attached.subscription.size == service.queueSize
    ensures attached.Joined? ==>
      service.Rooms()[mine] == WithSubscription(service.Entered(old(service.Rooms()), mine, now), attached.subscription)
  {
    hide LiveFileService.Valid, LiveFileService.Rooms, LiveFileService.Objects, LiveFileService.Belongings, LiveFileService.HistoryOf,
      LiveFileService.Entered, WithSubscription, WithEvent, LiveSubscription.State;
    reached := Rejected(NotLive);
    service.ObjectsAre(other);
    attached := Join(service, mine, now, id);
    if attached.Joined? {
      service.ObjectsAre(other);
      service.ObjectsAre(mine);
      reached := service.PublishChange(other, foreign, now);
      service.ObjectsAre(mine);
    }
  }

  /** What is replayed to a new subscription is what this key's session has, whatever happens under the other key. */
  method JoinAndReplay(service: LiveFileService, mine: Key, other: Key, foreign: Change, after: nat, now: real, id: string)
    returns (attached: Attached, replayed: Replayed)
    requires service.Valid() && mine != other && (mine in service.sessions ==> id !in service.sessions[mine].subscribers)
    modifies service`sessions, service.Objects(mine), service.Objects(other)
    ensures service.Valid()
    ensures attached.Joined? ==> replayed.Answer? && Exact(service.Entered(old(service.Rooms()), mine, now), after, replayed.replay)
    ensures attached.Joined? ==> fresh(service.Objects(mine) - old(service.Objects(mine))) && attached.subscription.size > 0
    ensures attached.Joined? ==> mine in service.Rooms() && NewlyIn(service.Rooms()[mine], attached.subscription)
    ensures attached.Joined? ==> service.HistoryOf(mine) == old(service.HistoryOf(mine))
  {
    hide LiveFileService.Valid, LiveFileService.Rooms, LiveFileService.Objects, LiveFileService.Belongings, LiveFileService.HistoryOf,
      LiveFileService.Entered, LiveFileService.Bounded, WithSubscription, WithEvent, Exact, NewlyIn;
    replayed := Unanswered(NotLive);
    ghost var room := service.Entered(service.Rooms(), mine, now);
    service.HistoryIs(mine);
    service.EnteredKeeps(service.Rooms(), mine, now);
    var reached;
    attached, reached := JoinBesides(service, mine, other, foreign, now, id);
    if attached.Joined? {
      service.ValidMeans();
      service.Positive(service.sessions.Keys, service.revoked, service.revokedOrder);
      JoinedRoom(room, attached.subscription, now);
      service.LiveIsNotRevoked(mine);
      service.EnteredOld(service.Rooms(), mine, now);
      service.ObjectsAre(mine);
      replayed := service.Replay(mine, Some(Cursor(mine, after)), now);
      service.ObjectsAre(mine);
      service.HistoryIs(mine);
    }
  }

  /** Two keys in one service: what is published under the other neither reaches a subscription nor changes what is replayed. */
  method UseTwoKeys(service: LiveFileService, mine: Key, other: Key, foreign: Change, own: Change, after: nat, now: real, id: string)
    returns (attached: Attached, replayed: Replayed, published: Published)
    requires service.Valid() && mine != other && (mine in service.sessions ==> id !in service.sessions[mine].subscribers)
    modifies service`sessions, service.Objects(mine), service.Objects(other)
    ensures service.Valid()
    ensures attached.Joined? ==> replayed.Answer? && Exact(service.Entered(old(service.Rooms()), mine, now), after, replayed.replay)
    ensures attached.Joined? && published.Published? ==> attached.subscription.queue == [Changed(published.event)]
    ensures attached.Joined? && published.Published? ==> published.event == LiveChange(|old(service.HistoryOf(mine))| + 1, own)
  {
    hide LiveFileService.Valid, LiveFileService.Rooms, LiveFileService.Objects, LiveFileService.HistoryOf, LiveFileService.Entered,
      SeatWith, Exact;
    published := Rejected(NotLive);
    attached, replayed := JoinAndReplay(service, mine, other, foreign, after, now, id);
    if attached.Joined? {
      service.SeatIs(mine, attached.subscription.id);
      published := PublishTo(service, mine, attached.subscription, own, now);
      if published.Published? {
        FirstOffered(attached.subscription.size, published.event);
      }
    }
  }
}
