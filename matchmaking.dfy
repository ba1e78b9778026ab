/** The in-memory matchmaking coordinator: a FIFO queue of waiting user ids,
    the partner of every matched user, the room of every match, the last
    heartbeat of every user and the time each waiting user joined the queue.
    Every operation is modelled as one atomic step (the service serialises
    them with a lock), and the clock is an explicit `now` in milliseconds.

    The pure functions below give the meaning of each operation on a
    `Coordinator` value; the class `MatchmakingService` holds the same state
    in fields and its methods are proved to follow those functions. */
module Matchmaking {
  import opened JavaLang
  import opened Collections

  const QUEUE_TIMEOUT_MS: int := 60000
  const HEARTBEAT_TIMEOUT_MS: int := 15000

  /** A room: the user who joined second (user1), the user taken from the
      queue (user2), the room id, and the creation time. */
  datatype MatchInfo = MatchInfo(user1: string, user2: string, roomId: string, createdAt: int)

  datatype Coordinator = Coordinator(
    queue: seq<string>,              // waitingQueue, head first
    partners: map<string, string>,   // activeMatches
    rooms: map<string, MatchInfo>,   // matchRooms
    heartbeats: map<string, int>,    // userHeartbeats
    joinTimes: map<string, int>)     // queueJoinTimes

  const Empty: Coordinator := Coordinator([], map[], map[], map[], map[])

  /** generateRoomId: the two ids in string order behind "room_". */
  function RoomId(a: string, b: string): string {
    if LessEq(a, b) then "room_" + a + "_" + b else "room_" + b + "_" + a
  }

  // ---------------------------------------------------------------------------
  // The operations, as functions of the state

  /** updateHeartbeat */
  function Heartbeat(s: Coordinator, u: string, now: int): Coordinator {
    s.(heartbeats := s.heartbeats[u := now])
  }

  /** getMatch: the room stored under the id derived from the partner. */
  function Match(s: Coordinator, u: string): Option<MatchInfo> {
    if u in s.partners then Get(s.rooms, RoomId(u, s.partners[u])) else None
  }

  datatype JoinResult = JoinResult(state: Coordinator, room: Option<MatchInfo>)

  /** joinQueue */
  function Join(s: Coordinator, u: string, now: int): JoinResult {
    var t := Heartbeat(s, u, now);
    if u in t.partners then
      JoinResult(t, Match(t, u))
    else if t.queue != [] then
      var p := t.queue[0];
      var id := RoomId(u, p);
      var m := MatchInfo(u, p, id, now);
      JoinResult(t.(queue := t.queue[1..], joinTimes := t.joinTimes - {p},
                    rooms := t.rooms[id := m], partners := t.partners[u := p][p := u]),
                 Some(m))
    else
      JoinResult(t.(queue := t.queue + [u], joinTimes := t.joinTimes[u := now]), None)
  }

  /** The rooms naming none of the users in `S`. */
  function RoomsWithout(rooms: map<string, MatchInfo>, S: set<string>): map<string, MatchInfo> {
    map k | k in rooms && rooms[k].user1 !in S && rooms[k].user2 !in S :: rooms[k]
  }

  /** leaveQueue */
  function Leave(s: Coordinator, u: string): Coordinator {
    Coordinator(RemoveFirst(s.queue, u), s.partners - {u}, RoomsWithout(s.rooms, {u}),
                s.heartbeats - {u}, s.joinTimes - {u})
  }

  /** endMatch */
  function EndPair(s: Coordinator, u: string): Coordinator {
    if u in s.partners then
      var p := s.partners[u];
      s.(partners := s.partners - {u} - {p}, rooms := s.rooms - {RoomId(u, p)},
         heartbeats := s.heartbeats - {u})
    else
      s.(heartbeats := s.heartbeats - {u})
  }

  /** getWaitingTime, in whole seconds (Java division). */
  function WaitingTime(s: Coordinator, u: string, now: int): int {
    if u in s.joinTimes then JavaDiv(now - s.joinTimes[u], 1000) else 0
  }

  /** isQueueTimedOut */
  predicate QueueTimedOut(s: Coordinator, u: string, now: int) {
    u in s.joinTimes && now - s.joinTimes[u] > QUEUE_TIMEOUT_MS
  }

  /** The users cleanupStaleUsers collects: silent for too long, or queued for too long. */
  function StaleUsers(s: Coordinator, now: int): set<string> {
    (set u | u in s.heartbeats && now - s.heartbeats[u] > HEARTBEAT_TIMEOUT_MS)
    + (set u | u in s.joinTimes && now - s.joinTimes[u] > QUEUE_TIMEOUT_MS)
  }

  /** leaveQueue on each user of `us` in turn. */
  function LeaveInOrder(s: Coordinator, us: seq<string>): Coordinator
    decreases |us|
  {
    if us == [] then s else Leave(LeaveInOrder(s, us[..|us| - 1]), us[|us| - 1])
  }

  /** Every user of `S` removed at once: the reference meaning of the sweep. */
  function LeaveAll(s: Coordinator, S: set<string>): Coordinator {
    Coordinator(RemoveEach(s.queue, S), s.partners - S, RoomsWithout(s.rooms, S),
                s.heartbeats - S, s.joinTimes - S)
  }

  /** cleanupStaleUsers */
  function Sweep(s: Coordinator, now: int): Coordinator {
    LeaveAll(s, StaleUsers(s, now))
  }

  // ---------------------------------------------------------------------------
  // The intended invariant

  /** Ids the room-id scheme keeps apart: no '_' inside. */
  predicate WellFormedId(u: string) {
    '_' !in u
  }

  /** `m` is the room of the pair (u, p), in either order. */
  predicate RoomOf(m: MatchInfo, u: string, p: string) {
    m.roomId == RoomId(u, p) && ((m.user1 == u && m.user2 == p) || (m.user1 == p && m.user2 == u))
  }

  /** u's partner is someone else, points back at u, and their room is stored. */
  predicate Paired(s: Coordinator, u: string)
    requires u in s.partners
  {
    var p := s.partners[u];
    && p != u && p in s.partners && s.partners[p] == u
    && RoomId(u, p) in s.rooms && RoomOf(s.rooms[RoomId(u, p)], u, p)
  }

  /** The room stored under `k` belongs to a current pair and sits under that pair's id. */
  predicate Owned(s: Coordinator, k: string)
    requires k in s.rooms
  {
    var m := s.rooms[k];
    m.user1 in s.partners && s.partners[m.user1] == m.user2 && k == RoomId(m.user1, m.user2)
  }

  /** Pairing is symmetric and irreflexive, every pair has exactly its room,
      and a user is waiting or matched but not both. */
  ghost predicate Consistent(s: Coordinator) {
    QueueOk(s) && PairsOk(s) && RoomsOk(s)
  }

  /** Each waiting user is queued once, has a join time, and is not matched. */
  ghost predicate QueueOk(s: Coordinator) {
    && NoDup(s.queue)
    && (forall u :: u in s.joinTimes <==> u in s.queue)
    && (forall u | u in s.queue :: WellFormedId(u) && u !in s.partners)
  }

  /** A matched user is well formed and paired. */
  predicate PairOk(s: Coordinator, u: string) {
    u in s.partners ==> WellFormedId(u) && Paired(s, u)
  }

  /** A stored room is owned. */
  predicate RoomOk(s: Coordinator, k: string) {
    k in s.rooms ==> Owned(s, k)
  }

  ghost predicate PairsOk(s: Coordinator) {
    forall u :: PairOk(s, u)
  }

  ghost predicate RoomsOk(s: Coordinator) {
    forall k :: RoomOk(s, k)
  }

  // ---------------------------------------------------------------------------
  // Room ids

  /** The room id does not depend on the order of the two users, and puts the smaller first. */
  lemma RoomIdSymmetric(a: string, b: string)
    ensures RoomId(a, b) == RoomId(b, a)
    ensures LessEq(a, b) ==> RoomId(a, b) == RoomId(b, a) == "room_" + a + "_" + b
  {
    LessEqTotal(a, b);
    if LessEq(a, b) && LessEq(b, a) {
      LessEqAntisymmetric(a, b);
    }
  }

  lemma {:induction false} UnderscoreSplit(x: string, y: string, z: string, w: string)
    requires WellFormedId(x) && WellFormedId(z)
    requires x + "_" + y == z + "_" + w
    ensures x == z && y == w
  {
    var l := x + "_" + y;
    var r := z + "_" + w;
    assert l[0] == r[0];
    if x == [] || z == [] {
      assert x == [] && z == [];
      assert l[1..] == y && r[1..] == w;
    } else {
      assert x[0] == z[0];
      assert l[1..] == x[1..] + "_" + y;
      assert r[1..] == z[1..] + "_" + w;
      UnderscoreSplit(x[1..], y, z[1..], w);
      assert x == [x[0]] + x[1..] && z == [z[0]] + z[1..];
    }
  }

  /** A room id is "room_", one of the two ids, "_", and the other. */
  lemma RoomIdParts(a: string, b: string) returns (x: string, y: string)
    ensures RoomId(a, b) == "room_" + x + "_" + y && RoomId(a, b)[5..] == x + "_" + y
    ensures (x == a && y == b) || (x == b && y == a)
  {
    if LessEq(a, b) { x, y := a, b; } else { x, y := b, a; }
    assert ("room_" + x + "_" + y)[5..] == x + "_" + y;
  }

  /** With well-formed ids, a room id names exactly one pair. */
  lemma RoomIdInjective(a: string, b: string, c: string, d: string)
    requires WellFormedId(a) && WellFormedId(b) && WellFormedId(c) && WellFormedId(d)
    requires RoomId(a, b) == RoomId(c, d)
    ensures (a == c && b == d) || (a == d && b == c)
  {
    var x, y := RoomIdParts(a, b);
    var z, w := RoomIdParts(c, d);
    UnderscoreSplit(x, y, z, w);
  }

  /** Without the restriction, two different pairs can share a room id. */
  lemma RoomIdCollision()
    ensures RoomId("a_b", "c") == RoomId("a", "b_c") == "room_a_b_c"
  {
    LessEqByFirst("a_b", "c");
    LessEqByFirst("a", "b_c");
  }

  // ---------------------------------------------------------------------------
  // joinQueue

  /** A matched caller only refreshes its heartbeat and gets its stored room (None if deleted). */
  lemma JoinWhenMatched(s: Coordinator, u: string, now: int)
    requires u in s.partners
    ensures Join(s, u, now).state == Heartbeat(s, u, now)
    ensures Join(s, u, now).room == Match(s, u)
    ensures Join(s, u, now).room == Get(s.rooms, RoomId(u, s.partners[u]))
  {
  }

  /** With nobody waiting, the caller is queued at the tail with join time and heartbeat now. */
  lemma JoinEnqueues(s: Coordinator, u: string, now: int)
    requires u !in s.partners && s.queue == []
    ensures var t := Join(s, u, now);
      && t.room == None
      && t.state.queue == s.queue + [u]
      && t.state.joinTimes == s.joinTimes[u := now]
      && t.state.heartbeats == s.heartbeats[u := now]
      && t.state.partners == s.partners && t.state.rooms == s.rooms
  {
  }

  /** With someone waiting, the head is popped and paired with the caller in both directions. */
  lemma JoinPairsWithHead(s: Coordinator, u: string, now: int)
    requires u !in s.partners && s.queue != []
    ensures var h := s.queue[0]; var t := Join(s, u, now);
      && t.room == Some(MatchInfo(u, h, RoomId(u, h), now))
      && t.state.queue == s.queue[1..]
      && h !in t.state.joinTimes
      && t.state.partners[u] == h && t.state.partners[h] == u
      && t.state.rooms[RoomId(u, h)] == t.room.value
      && Match(t.state, u) == t.room && Match(t.state, h) == t.room
      && t.state.heartbeats == s.heartbeats[u := now]
  {
    RoomIdSymmetric(u, s.queue[0]);
  }

  /** A caller at the head of the queue is matched with itself. */
  lemma JoinSelfMatch(s: Coordinator, u: string, now: int)
    requires u !in s.partners && s.queue != [] && s.queue[0] == u
    ensures var t := Join(s, u, now);
      t.state.partners[u] == u && t.room.value.user1 == t.room.value.user2 == u
  {
  }

  /** The state after the caller `u` is paired with the queue head `h`. */
  function Paired2(s: Coordinator, u: string, h: string, now: int): Coordinator
    requires s.queue != []
  {
    var id := RoomId(u, h);
    s.(queue := s.queue[1..], joinTimes := s.joinTimes - {h},
       rooms := s.rooms[id := MatchInfo(u, h, id, now)], partners := s.partners[u := h][h := u])
  }

  lemma JoinQueueOk(s: Coordinator, u: string, now: int)
    requires QueueOk(s) && u !in s.partners && u !in s.queue && s.queue != []
    ensures QueueOk(Paired2(s, u, s.queue[0], now))
  {
    var h := s.queue[0];
    var t := Paired2(s, u, h, now);
    assert s.queue == [h] + s.queue[1..];
    assert NoDup(t.queue);
    forall v | v in t.queue ensures v != h && v != u {
      var j :| 0 <= j < |t.queue| && t.queue[j] == v;
      assert s.queue[j + 1] == v;
    }
  }

  lemma JoinPairsOk(s: Coordinator, u: string, h: string, now: int)
    requires PairsOk(s) && s.queue != [] && h == s.queue[0]
    requires WellFormedId(u) && WellFormedId(h) && u != h && u !in s.partners && h !in s.partners
    ensures PairsOk(Paired2(s, u, h, now))
  {
    var t := Paired2(s, u, h, now);
    var id := RoomId(u, h);
    RoomIdSymmetric(u, h);
    forall v | v in t.partners ensures PairOk(t, v) {
      if v != u && v != h {
        var p := s.partners[v];
        assert PairOk(s, v);
        assert PairOk(s, p);
        if RoomId(v, p) == id {
          RoomIdInjective(v, p, u, h);
        }
      }
    }
  }

  lemma JoinRoomsOk(s: Coordinator, u: string, h: string, now: int)
    requires PairsOk(s) && RoomsOk(s) && s.queue != [] && h == s.queue[0]
    requires u !in s.partners && h !in s.partners
    ensures RoomsOk(Paired2(s, u, h, now))
  {
    var t := Paired2(s, u, h, now);
    forall k | k in t.rooms ensures RoomOk(t, k) {
      if k != RoomId(u, h) {
        assert RoomOk(s, k);
        assert PairOk(s, s.rooms[k].user1);
      }
    }
  }

  /** Pairing and rooms are judged on the partner and room maps alone. */
  lemma SamePairing(s: Coordinator, t: Coordinator)
    requires PairsOk(s) && RoomsOk(s)
    requires s.partners == t.partners && s.rooms == t.rooms
    ensures PairsOk(t) && RoomsOk(t)
  {
    forall v ensures PairOk(t, v) { assert PairOk(s, v); }
    forall k ensures RoomOk(t, k) { assert RoomOk(s, k); }
  }

  /** Heartbeats play no part in consistency. */
  lemma HeartbeatKeepsConsistent(s: Coordinator, u: string, now: int)
    requires Consistent(s)
    ensures Consistent(Heartbeat(s, u, now))
  {
    SamePairing(s, Heartbeat(s, u, now));
  }

  lemma EnqueueKeepsConsistent(s: Coordinator, u: string, now: int)
    requires Consistent(s) && s.queue == [] && WellFormedId(u) && u !in s.partners
    ensures Consistent(s.(queue := s.queue + [u], joinTimes := s.joinTimes[u := now]))
  {
    var t := s.(queue := s.queue + [u], joinTimes := s.joinTimes[u := now]);
    assert t.queue == [u];
    assert QueueOk(t);
    SamePairing(s, t);
  }

  /** A fresh, well-formed caller keeps the state consistent. */
  lemma JoinPreservesConsistent(s: Coordinator, u: string, now: int)
    requires Consistent(s) && WellFormedId(u) && u !in s.queue
    ensures Consistent(Join(s, u, now).state)
  {
    var t := Heartbeat(s, u, now);
    HeartbeatKeepsConsistent(s, u, now);
    if u in s.partners {
      assert Join(s, u, now).state == t;
    } else if s.queue != [] {
      var h := s.queue[0];
      assert h in s.queue;
      JoinQueueOk(t, u, now);
      JoinPairsOk(t, u, h, now);
      JoinRoomsOk(t, u, h, now);
      assert Join(s, u, now).state == Paired2(t, u, h, now);
    } else {
      EnqueueKeepsConsistent(t, u, now);
    }
  }

  // ---------------------------------------------------------------------------
  // leaveQueue

  /** After leaving, the caller is in no map and no room; the queue loses its
      first occurrence of the caller. */
  lemma LeaveRemovesCaller(s: Coordinator, u: string)
    requires NoDup(s.queue)
    ensures var t := Leave(s, u);
      && u !in t.queue && u !in t.partners && u !in t.heartbeats && u !in t.joinTimes
      && (forall k | k in t.rooms :: t.rooms[k].user1 != u && t.rooms[k].user2 != u)
      && (forall v | v != u :: v in t.queue <==> v in s.queue)
  {
    RemoveFirstNoDup(s.queue, u);
  }

  /** Leaving while matched leaves the partner pointing at the caller with no room,
      so the state is no longer consistent. */
  lemma LeaveDanglesPartner(s: Coordinator, u: string)
    requires Consistent(s) && u in s.partners
    ensures var p := s.partners[u]; var t := Leave(s, u);
      && p in t.partners && t.partners[p] == u
      && Match(t, p) == None
      && !Consistent(t)
  {
    var p := s.partners[u];
    assert PairOk(s, u);
    RoomIdSymmetric(u, p);
    var t := Leave(s, u);
    assert p in t.partners && u !in t.partners;
    assert !PairOk(t, p);
  }

  /** No room names a user who is not matched. */
  lemma RoomsOfUnmatched(s: Coordinator, u: string)
    requires PairsOk(s) && RoomsOk(s) && u !in s.partners
    ensures RoomsWithout(s.rooms, {u}) == s.rooms
  {
    forall k | k in s.rooms ensures s.rooms[k].user1 != u && s.rooms[k].user2 != u {
      assert RoomOk(s, k);
      assert PairOk(s, s.rooms[k].user1);
    }
  }

  lemma LeaveQueueOk(s: Coordinator, u: string)
    requires QueueOk(s)
    ensures QueueOk(Leave(s, u))
  {
    RemoveFirstNoDup(s.queue, u);
  }

  /** An unmatched caller leaving keeps the state consistent. */
  lemma LeavePreservesConsistent(s: Coordinator, u: string)
    requires Consistent(s) && u !in s.partners
    ensures Consistent(Leave(s, u))
  {
    var t := Leave(s, u);
    LeaveQueueOk(s, u);
    RoomsOfUnmatched(s, u);
    RemoveAbsentKey(s.partners, u);
    SamePairing(s, t);
    assert Consistent(t);
  }

  // ---------------------------------------------------------------------------
  // endMatch and getMatch

  /** In a consistent state, a matched user's room names the user and the partner. */
  lemma MatchOfPaired(s: Coordinator, u: string)
    requires Consistent(s)
    ensures u in s.partners ==> Match(s, u).Some? && RoomOf(Match(s, u).value, u, s.partners[u])
    ensures u !in s.partners ==> Match(s, u) == None
  {
    if u in s.partners {
      assert PairOk(s, u);
    }
  }

  /** endMatch removes the pair and its room; neither user has a match afterwards. */
  lemma EndMatchUnpairs(s: Coordinator, u: string)
    requires Consistent(s) && u in s.partners
    ensures var p := s.partners[u]; var t := EndPair(s, u);
      && Match(t, u) == None && Match(t, p) == None
      && t.queue == s.queue && t.joinTimes == s.joinTimes
      && t.heartbeats == s.heartbeats - {u}
      && RoomId(u, p) !in t.rooms
  {
    assert PairOk(s, u);
  }

  /** endMatch keeps the state consistent. */
  lemma EndMatchPreservesConsistent(s: Coordinator, u: string)
    requires Consistent(s)
    ensures Consistent(EndPair(s, u))
  {
    var t := EndPair(s, u);
    if u in s.partners {
      var p := s.partners[u];
      assert PairOk(s, u);
      assert PairOk(s, p);
      RoomIdSymmetric(u, p);
      forall v | v in t.partners ensures PairOk(t, v) {
        assert PairOk(s, v);
        var q := s.partners[v];
        assert PairOk(s, q);
        if RoomId(v, q) == RoomId(u, p) {
          RoomIdInjective(v, q, u, p);
        }
      }
      forall k | k in t.rooms ensures RoomOk(t, k) {
        assert RoomOk(s, k);
        var m := s.rooms[k];
        assert PairOk(s, m.user1);
      }
    } else {
      SamePairing(s, t);
    }
  }

  // ---------------------------------------------------------------------------
  // Timeouts and the sweep

  /** getWaitingTime is 0 off the queue, and whole elapsed seconds on it. */
  lemma WaitingTimeSeconds(s: Coordinator, u: string, now: int)
    ensures u !in s.joinTimes ==> WaitingTime(s, u, now) == 0
    ensures u in s.joinTimes && now >= s.joinTimes[u] ==>
      var w := WaitingTime(s, u, now);
      0 <= w && w * 1000 <= now - s.joinTimes[u] < (w + 1) * 1000
  {
  }

  /** A queue timeout makes a user stale; a user heard from within the heartbeat
      timeout and not queued too long is not. */
  lemma StaleUsersCharacterized(s: Coordinator, u: string, now: int)
    ensures QueueTimedOut(s, u, now) ==> u in StaleUsers(s, now)
    ensures u in StaleUsers(s, now) <==>
      (u in s.heartbeats && now - s.heartbeats[u] > HEARTBEAT_TIMEOUT_MS) || QueueTimedOut(s, u, now)
  {
  }

  /** One more user leaving after a group has left is the larger group leaving. */
  lemma LeaveAfterLeaveAll(s: Coordinator, S: set<string>, x: string)
    requires x !in S
    ensures Leave(LeaveAll(s, S), x) == LeaveAll(s, S + {x})
  {
    RemoveEachThenFirst(s.queue, S, x);
    RemoveKeysTwice(s.partners, S, {x});
    RemoveKeysTwice(s.heartbeats, S, {x});
    RemoveKeysTwice(s.joinTimes, S, {x});
    assert RoomsWithout(RoomsWithout(s.rooms, S), {x}) == RoomsWithout(s.rooms, S + {x});
  }

  /** Leaving distinct users one at a time is leaving them all at once, in any order. */
  lemma {:induction false} LeaveInOrderIsLeaveAll(s: Coordinator, us: seq<string>)
    requires NoDup(us)
    ensures LeaveInOrder(s, us) == LeaveAll(s, set u | u in us)
    decreases |us|
  {
    if us == [] {
      RemoveEachNone(s.queue);
      assert (set u | u in us) == {};
      assert RoomsWithout(s.rooms, {}) == s.rooms;
    } else {
      var init := us[..|us| - 1];
      var x := us[|us| - 1];
      var S := set u | u in init;
      assert us == init + [x];
      assert NoDup(init);
      assert x !in S by {
        forall j | 0 <= j < |init| ensures init[j] != x { assert init[j] == us[j]; }
      }
      assert (set u | u in us) == S + {x};
      calc {
        LeaveInOrder(s, us);
        Leave(LeaveInOrder(s, init), x);
        { LeaveInOrderIsLeaveAll(s, init); }
        Leave(LeaveAll(s, S), x);
        { LeaveAfterLeaveAll(s, S, x); }
        LeaveAll(s, S + {x});
      }
    }
  }

  lemma LeaveInOrderStep(s: Coordinator, us: seq<string>, i: int)
    requires 0 <= i < |us|
    ensures LeaveInOrder(s, us[..i + 1]) == Leave(LeaveInOrder(s, us[..i]), us[i])
  {
    assert us[..i + 1][..i] == us[..i];
  }

  /** The sweep's removals, done in any order that lists every stale user once. */
  lemma SweepInOrder(s: Coordinator, us: seq<string>, now: int)
    requires NoDup(us) && (set u | u in us) == StaleUsers(s, now)
    ensures LeaveInOrder(s, us[..|us|]) == Sweep(s, now)
  {
    assert us[..|us|] == us;
    LeaveInOrderIsLeaveAll(s, us);
  }

  /** After the sweep no stale user is left anywhere; everyone else keeps their entries. */
  lemma SweepRemovesStale(s: Coordinator, now: int, u: string)
    requires NoDup(s.queue)
    ensures var t := Sweep(s, now);
      u in StaleUsers(s, now) ==>
        && u !in t.queue && u !in t.partners && u !in t.heartbeats && u !in t.joinTimes
        && (forall k | k in t.rooms :: t.rooms[k].user1 != u && t.rooms[k].user2 != u)
    ensures var t := Sweep(s, now);
      u !in StaleUsers(s, now) ==>
        && (u in t.queue <==> u in s.queue)
        && Get(t.partners, u) == Get(s.partners, u)
        && Get(t.heartbeats, u) == Get(s.heartbeats, u)
        && Get(t.joinTimes, u) == Get(s.joinTimes, u)
  {
    RemoveEachNoDup(s.queue, StaleUsers(s, now), u);
  }

  /** Removing a set of users that holds the partner of each matched member
      keeps the state consistent. */
  lemma LeaveAllPreservesConsistent(s: Coordinator, S: set<string>)
    requires Consistent(s)
    requires forall u | u in S && u in s.partners :: s.partners[u] in S
    ensures Consistent(LeaveAll(s, S))
  {
    var t := LeaveAll(s, S);
    RemoveEachKeepsNoDup(s.queue, S);
    forall u ensures (u in t.joinTimes <==> u in t.queue) && (u in t.queue ==> WellFormedId(u) && u !in t.partners) {
      RemoveEachNoDup(s.queue, S, u);
    }
    assert QueueOk(t);
    forall v | v in t.partners ensures PairOk(t, v) {
      assert PairOk(s, v);
      var p := s.partners[v];
      assert PairOk(s, p);
      assert p !in S;
    }
    forall k | k in t.rooms ensures RoomOk(t, k) {
      assert RoomOk(s, k);
    }
  }

  /** The sweep keeps the state consistent when every stale matched user's
      partner is stale too. */
  lemma SweepPreservesConsistent(s: Coordinator, now: int)
    requires Consistent(s)
    requires forall u | u in StaleUsers(s, now) && u in s.partners :: s.partners[u] in StaleUsers(s, now)
    ensures Consistent(Sweep(s, now))
  {
    LeaveAllPreservesConsistent(s, StaleUsers(s, now));
  }

  /** A stale user swept away from a partner who is not stale leaves that
      partner pointing at it with no room, so the state is no longer consistent. */
  lemma SweepDanglesPartner(s: Coordinator, now: int, u: string)
    requires Consistent(s) && u in s.partners
    requires u in StaleUsers(s, now) && s.partners[u] !in StaleUsers(s, now)
    ensures var p := s.partners[u]; var t := Sweep(s, now);
      && p in t.partners && t.partners[p] == u && u !in t.partners
      && Match(t, p) == None
      && !Consistent(t)
  {
    var p := s.partners[u];
    assert PairOk(s, u);
    RoomIdSymmetric(u, p);
    var t := Sweep(s, now);
    assert p in t.partners && u !in t.partners;
    assert !PairOk(t, p);
  }

  // ---------------------------------------------------------------------------
  // Runs from the empty coordinator

  /** One call on the coordinator. */
  datatype Call =
    | JoinCall(user: string, now: int)
    | LeaveCall(user: string)
    | EndCall(user: string)
    | HeartbeatCall(user: string, now: int)
    | SweepCall(now: int)

  function Step(s: Coordinator, c: Call): Coordinator {
    match c
    case JoinCall(u, now) => Join(s, u, now).state
    case LeaveCall(u) => Leave(s, u)
    case EndCall(u) => EndPair(s, u)
    case HeartbeatCall(u, now) => Heartbeat(s, u, now)
    case SweepCall(now) => Sweep(s, now)
  }

  /** The state after the calls `cs`, first call first. */
  function Run(s: Coordinator, cs: seq<Call>): Coordinator
    decreases |cs|
  {
    if cs == [] then s else Run(Step(s, cs[0]), cs[1..])
  }

  /** No call lengthens a queue of at most one user: joinQueue offers only to
      an empty queue, and the other calls only remove. */
  lemma StepQueueAtMostOne(s: Coordinator, c: Call)
    requires |s.queue| <= 1
    ensures |Step(s, c).queue| <= 1
  {
    match c
    case SweepCall(now) => RemoveEachShorter(s.queue, StaleUsers(s, now));
    case _ =>
  }

  lemma {:induction false} RunQueueAtMostOne(s: Coordinator, cs: seq<Call>)
    requires |s.queue| <= 1
    ensures |Run(s, cs).queue| <= 1
    decreases |cs|
  {
    if cs != [] {
      StepQueueAtMostOne(s, cs[0]);
      RunQueueAtMostOne(Step(s, cs[0]), cs[1..]);
    }
  }

  /** From the empty coordinator the queue never holds more than one user, so
      an unmatched queued user who joins again is the head and is matched
      with itself: no caller is ever matched while staying queued. */
  lemma ReachedRejoinIsSelfMatch(cs: seq<Call>, u: string, now: int)
    requires var s := Run(Empty, cs); u in s.queue && u !in s.partners
    ensures var s := Run(Empty, cs);
      && s.queue == [u]
      && var t := Join(s, u, now);
      && t.state.queue == [] && t.state.partners[u] == u
  {
    RunQueueAtMostOne(Empty, cs);
  }

  // ---------------------------------------------------------------------------
  // A scenario

  /** Two users joining an empty coordinator are paired, the first one taken from the queue. */
  lemma TwoJoins(t1: int, t2: int)
    ensures var a := Join(Empty, "A", t1);
      && a.room == None && a.state.queue == ["A"]
      && var b := Join(a.state, "B", t2);
      && b.room == Some(MatchInfo("B", "A", "room_A_B", t2))
      && b.state.queue == []
      && b.state.partners == map["B" := "A", "A" := "B"]
  {
    var a := Join(Empty, "A", t1);
    assert a.state == Coordinator(["A"], map[], map[], map["A" := t1], map["A" := t1]);
    LessEqByFirst("A", "B");
    assert RoomId("B", "A") == "room_A_B";
  }

  // ---------------------------------------------------------------------------
  // The service object

  class MatchmakingService {
    var waitingQueue: seq<string>
    var activeMatches: map<string, string>
    var matchRooms: map<string, MatchInfo>
    var userHeartbeats: map<string, int>
    var queueJoinTimes: map<string, int>

    function State(): Coordinator
      reads this
    {
      Coordinator(waitingQueue, activeMatches, matchRooms, userHeartbeats, queueJoinTimes)
    }

    constructor ()
      ensures State() == Empty
    {
      waitingQueue := [];
      activeMatches := map[];
      matchRooms := map[];
      userHeartbeats := map[];
      queueJoinTimes := map[];
    }

    method UpdateHeartbeat(userId: string, now: int)
      modifies this
      ensures State() == Heartbeat(old(State()), userId, now)
    {
      userHeartbeats := userHeartbeats[userId := now];
    }

    method GetWaitingTime(userId: string, now: int) returns (seconds: int)
      ensures seconds == WaitingTime(State(), userId, now)
    {
      if userId !in queueJoinTimes {
        return 0;
      }
      seconds := JavaDiv(now - queueJoinTimes[userId], 1000);
    }

    method IsQueueTimedOut(userId: string, now: int) returns (timedOut: bool)
      ensures timedOut == QueueTimedOut(State(), userId, now)
    {
      if userId !in queueJoinTimes {
        return false;
      }
      timedOut := now - queueJoinTimes[userId] > QUEUE_TIMEOUT_MS;
    }

    method JoinQueue(userId: string, now: int) returns (room: Option<MatchInfo>)
      modifies this
      ensures JoinResult(State(), room) == Join(old(State()), userId, now)
    {
      UpdateHeartbeat(userId, now);
      if userId in activeMatches {
        var matched := activeMatches[userId];
        return Get(matchRooms, RoomId(userId, matched));
      }
      if waitingQueue != [] {
        var matched := waitingQueue[0];
        waitingQueue := waitingQueue[1..];
        queueJoinTimes := queueJoinTimes - {matched};
        var roomId := RoomId(userId, matched);
        var m := MatchInfo(userId, matched, roomId, now);
        matchRooms := matchRooms[roomId := m];
        activeMatches := activeMatches[userId := matched];
        activeMatches := activeMatches[matched := userId];
        return Some(m);
      }
      waitingQueue := waitingQueue + [userId];
      queueJoinTimes := queueJoinTimes[userId := now];
      return None;
    }

    method LeaveQueue(userId: string)
      modifies this
      ensures State() == Leave(old(State()), userId)
    {
      waitingQueue := RemoveFirst(waitingQueue, userId);
      activeMatches := activeMatches - {userId};
      queueJoinTimes := queueJoinTimes - {userId};
      userHeartbeats := userHeartbeats - {userId};
      matchRooms := RoomsWithout(matchRooms, {userId});
    }

    method GetMatch(userId: string) returns (room: Option<MatchInfo>)
      ensures room == Match(State(), userId)
    {
      if userId !in activeMatches {
        return None;
      }
      var matched := activeMatches[userId];
      room := Get(matchRooms, RoomId(userId, matched));
    }

    method EndMatch(userId: string)
      modifies this
      ensures State() == EndPair(old(State()), userId)
    {
      if userId in activeMatches {
        var matched := activeMatches[userId];
        activeMatches := activeMatches - {userId};
        activeMatches := activeMatches - {matched};
        matchRooms := matchRooms - {RoomId(userId, matched)};
      }
      userHeartbeats := userHeartbeats - {userId};
    }

    method GetQueueSize() returns (size: int)
      ensures size == |State().queue|
    {
      size := |waitingQueue|;
    }

    method IsInQueue(userId: string) returns (queued: bool)
      ensures queued <==> userId in State().queue
    {
      queued := userId in waitingQueue;
    }

    /** The two scans of cleanupStaleUsers. The entry sets are walked in an
        unspecified order (`:|`); the sweep does not depend on it. */
    method CollectStaleUsers(now: int) returns (staleUsers: seq<string>)
      ensures NoDup(staleUsers)
      ensures (set u | u in staleUsers) == StaleUsers(State(), now)
    {
      staleUsers := [];
      var pending := userHeartbeats.Keys;
      while pending != {}
        invariant pending <= userHeartbeats.Keys
        invariant NoDup(staleUsers)
        invariant forall u :: u in staleUsers <==>
          u in userHeartbeats && u !in pending && now - userHeartbeats[u] > HEARTBEAT_TIMEOUT_MS
        decreases pending
      {
        var u :| u in pending;
        if now - userHeartbeats[u] > HEARTBEAT_TIMEOUT_MS {
          staleUsers := staleUsers + [u];
        }
        pending := pending - {u};
      }
      pending := queueJoinTimes.Keys;
      while pending != {}
        invariant pending <= queueJoinTimes.Keys
        invariant NoDup(staleUsers)
        invariant forall u :: u in staleUsers <==>
          (u in userHeartbeats && now - userHeartbeats[u] > HEARTBEAT_TIMEOUT_MS)
          || (u in queueJoinTimes && u !in pending && now - queueJoinTimes[u] > QUEUE_TIMEOUT_MS)
        decreases pending
      {
        var u :| u in pending;
        if now - queueJoinTimes[u] > QUEUE_TIMEOUT_MS && u !in staleUsers {
          staleUsers := staleUsers + [u];
        }
        pending := pending - {u};
      }
    }

    method CleanupStaleUsers(now: int)
      modifies this
      ensures State() == Sweep(old(State()), now)
    {
      var staleUsers := CollectStaleUsers(now);
      ghost var s0 := State();
      var i := 0;
      while i < |staleUsers|
        invariant 0 <= i <= |staleUsers|
        invariant State() == LeaveInOrder(s0, staleUsers[..i])
      {
        var userId := staleUsers[i];
        LeaveInOrderStep(s0, staleUsers, i);
        LeaveQueue(userId);
        RemoveAbsentKey(userHeartbeats, userId);
        RemoveAbsentKey(queueJoinTimes, userId);
        userHeartbeats := userHeartbeats - {userId};
        queueJoinTimes := queueJoinTimes - {userId};
        i := i + 1;
      }
      SweepInOrder(s0, staleUsers, now);
    }
  }
}
