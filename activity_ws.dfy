/** The activity WebSocket endpoint (app/api/activity/ws.py): the connection manager, the
    global timer registry `activity_timers`, the admission and receive loop of
    `websocket_endpoint` with its `finally` cleanup, the variant-submission timer task and
    the roulette. Every step of a coroutine between two awaits that matter runs as one
    method; sleeps take no time. The wire is a log of the frames the server sends. */
module ActivityWs {
  import opened Wrappers
  import opened ActivityConstants
  import CE = CoreExceptions
  import AS = ActivityService
  import RS = RoomsService

  /** A WebSocket connection, by identity. */
  type Socket = nat

  /** The user record the endpoint works with (id, names, avatar). */
  datatype UserInfo = UserInfo(id: int, firstName: string, lastName: string, avatarUrl: Option<string>)

  /** The JSON messages the server sends, one constructor per `event` value. */
  datatype Event =
    | ActivityState(status: ActivityStatus, winnerId: Option<int>, creatorId: int)
    | UsersInActivity(users: seq<UserInfo>)
    | Connected(message: string)
    | UserJoined(userId: int, username: string, avatarUrl: Option<string>)
    | UserLeft(userId: int, username: string)
    | Pong
    | Error(message: string)
    | VariantSubmitted(userId: int, variant: string, username: string, avatarUrl: Option<string>)
    | TimerStarted(duration: int)
    | TimerFinished
    | RouletteStarted(variantsCount: int)
    | VariantEliminated(userId: int, variant: string)
    | WinnerDeclared(userId: int, variant: string)
    | RouletteCancelled(reason: string)

  /** The exceptions of other libraries that reach the generic handler; their text, which
      becomes the close reason, is the library's. */
  datatype Fault =
    | SendFailed                    // a send on a connection that is over
    | JsonDecodeError               // `json.loads` of a frame that is not JSON
    | AttributeError(name: string)  // `.get` of a non-object, or a method the service lacks
    | IntegrityError                // the membership insert of a second join

  /** A close reason: a literal text, or `str(e)` of a library exception. */
  datatype Reason = Text(text: string) | ErrorText(fault: Fault)

  /** A frame the server puts on the wire. */
  datatype Output =
    | Sent(socket: Socket, event: Event)
    | Closed(socket: Socket, code: int, reason: Reason)

  const PolicyViolation := 1008
  const ActivityClose := 4000
  const RoomClose := 4003
  const TimerDuration := 60
  const NotCreatorMessage := "Только создатель активности может запустить игру"
  const NoVariantsReason := "No variants submitted"

  /** The `connected` message. */
  function ConnectedMessage(activityId: int): string
  {
    "Вы успешно подключились к активности " + CE.IntText(activityId)
  }

  // ---------------------------------------------------------------------------
  // The wire

  /** The sockets of the server; a socket is `gone` once its connection is over, because the
      client went away or the server closed it. */
  class Transport {
    var log: seq<Output>
    var gone: set<Socket>

    constructor ()
      ensures log == [] && gone == {}
    {
      log := [];
      gone := {};
    }

    /** `send_text`/`send_json`: the frame goes out, or the send raises once the connection is over. */
    method SendEvent(socket: Socket, e: Event) returns (ok: bool)
      modifies this
      ensures ok <==> socket !in old(gone)
      ensures log == old(log) + (if ok then [Sent(socket, e)] else [])
      ensures gone == old(gone)
    {
      ok := socket !in gone;
      if ok {
        log := log + [Sent(socket, e)];
      }
    }

    /** `close`: the close frame goes out unless the connection is already over, and it is over after. */
    method Close(socket: Socket, code: int, reason: Reason)
      modifies this
      ensures log == old(log) + CloseOutput(socket, code, reason, old(gone))
      ensures gone == old(gone) + {socket}
    {
      log := log + CloseOutput(socket, code, reason, gone);
      gone := gone + {socket};
    }

    /** The client goes away; the handler learns of it at its next receive. */
    method Hangup(socket: Socket)
      modifies this
      ensures log == old(log)
      ensures gone == old(gone) + {socket}
    {
      gone := gone + {socket};
    }
  }

  /** What a close puts on the wire. */
  function CloseOutput(socket: Socket, code: int, reason: Reason, gone: set<Socket>): seq<Output>
  {
    if socket in gone then [] else [Closed(socket, code, reason)]
  }

  // ---------------------------------------------------------------------------
  // Connection lists

  /** The list of an activity, empty for one never connected to. */
  function ConnectionsOf(connections: map<int, seq<Socket>>, activityId: int): seq<Socket>
  {
    if activityId in connections then connections[activityId] else []
  }

  /** `list.remove(x)` after `x in list`: the first occurrence goes and the rest keep their order. */
  function RemoveFirst(xs: seq<Socket>, x: Socket): (r: seq<Socket>)
    ensures x in xs ==> |r| == |xs| - 1
    ensures x !in xs ==> r == xs
    ensures forall y :: y != x ==> (y in r <==> y in xs)
  {
    if xs == [] then []
    else if xs[0] == x then xs[1..]
    else [xs[0]] + RemoveFirst(xs[1..], x)
  }

  /** Exactly one occurrence of the socket goes, when there is one, and nothing else. */
  lemma {:induction false} RemoveFirstCounts(xs: seq<Socket>, x: Socket)
    ensures multiset(RemoveFirst(xs, x)) == multiset(xs) - multiset{x}
  {
    if xs != [] {
      assert xs == [xs[0]] + xs[1..];
      if xs[0] != x {
        RemoveFirstCounts(xs[1..], x);
      }
    }
  }

  /** The occurrence removed is the first one. */
  lemma {:induction false} RemoveFirstSplits(xs: seq<Socket>, x: Socket, i: nat)
    requires i < |xs| && xs[i] == x && x !in xs[..i]
    ensures RemoveFirst(xs, x) == xs[..i] + xs[i + 1..]
  {
    if i > 0 {
      assert xs[0] != x by { assert xs[0] == xs[..i][0]; }
      assert xs[1..][..i - 1] == xs[1..i];
      assert x !in xs[1..][..i - 1] by {
        assert forall y :: y in xs[1..i] ==> y in xs[..i];
      }
      RemoveFirstSplits(xs[1..], x, i - 1);
      assert xs[..i] == [xs[0]] + xs[1..i];
      assert xs[1..][i..] == xs[i + 1..];
    }
  }

  /** No socket appears twice in a list. */
  predicate NoDuplicates(xs: seq<Socket>)
  {
    forall i, j :: 0 <= i < j < |xs| ==> xs[i] != xs[j]
  }

  /** The position of the first occurrence. */
  function IndexOf(xs: seq<Socket>, x: Socket): (i: nat)
    requires x in xs
    ensures i < |xs| && xs[i] == x && x !in xs[..i]
  {
    if xs[0] == x then 0
    else
      var i := IndexOf(xs[1..], x);
      assert xs[..i + 1] == [xs[0]] + xs[1..][..i];
      i + 1
  }

  /** On a list without repeats, the removed socket is gone from it and no repeat appears. */
  lemma RemoveFirstNoDuplicates(xs: seq<Socket>, x: Socket)
    requires NoDuplicates(xs)
    ensures x !in RemoveFirst(xs, x)
    ensures NoDuplicates(RemoveFirst(xs, x))
  {
    if x in xs {
      var i := IndexOf(xs, x);
      RemoveFirstSplits(xs, x, i);
      var r := xs[..i] + xs[i + 1..];
      forall j | 0 <= j < |r|
        ensures r[j] == xs[if j < i then j else j + 1]
      {
      }
      forall p, q | 0 <= p < q < |r|
        ensures r[p] != r[q]
      {
        assert r[p] == xs[if p < i then p else p + 1];
        assert r[q] == xs[if q < i then q else q + 1];
      }
      forall j | 0 <= j < |r|
        ensures r[j] != x
      {
        assert r[j] == xs[if j < i then j else j + 1];
      }
    }
  }

  /** `connect`: the list of the activity, created empty when missing, gets the socket at its end. */
  function WithConnection(connections: map<int, seq<Socket>>, socket: Socket, activityId: int): (r: map<int, seq<Socket>>)
    ensures r.Keys == connections.Keys + {activityId}
    ensures r[activityId] == ConnectionsOf(connections, activityId) + [socket]
    ensures forall a :: a in connections && a != activityId ==> r[a] == connections[a]
  {
    connections[activityId := ConnectionsOf(connections, activityId) + [socket]]
  }

  /** `disconnect`: one occurrence of the socket leaves the activity's list; the key stays. */
  function WithoutConnection(connections: map<int, seq<Socket>>, socket: Socket, activityId: int): (r: map<int, seq<Socket>>)
    ensures r.Keys == connections.Keys
    ensures activityId in connections ==> r[activityId] == RemoveFirst(connections[activityId], socket)
    ensures forall a :: a in connections && a != activityId ==> r[a] == connections[a]
  {
    if activityId in connections then connections[activityId := RemoveFirst(connections[activityId], socket)]
    else connections
  }

  /** A disconnect undoes a connect of a socket the list did not hold, except that the
      activity's key stays, with an empty list if it was new. */
  lemma ConnectThenDisconnect(connections: map<int, seq<Socket>>, socket: Socket, activityId: int)
    requires socket !in ConnectionsOf(connections, activityId)
    ensures WithoutConnection(WithConnection(connections, socket, activityId), socket, activityId)
            == connections[activityId := ConnectionsOf(connections, activityId)]
  {
    var xs := ConnectionsOf(connections, activityId);
    var added := WithConnection(connections, socket, activityId);
    assert added == connections[activityId := xs + [socket]];
    RemoveFirstSplits(xs + [socket], socket, |xs|);
    assert (xs + [socket])[..|xs|] == xs;
    assert (xs + [socket])[|xs| + 1..] == [];
    assert RemoveFirst(added[activityId], socket) == xs;
    assert WithoutConnection(added, socket, activityId) == added[activityId := xs];
    assert added[activityId := xs] == connections[activityId := xs];
  }

  /** A connect of a socket in no list keeps every list free of repeats and every socket in
      the lists it was in. */
  lemma WithConnectionKeeps(connections: map<int, seq<Socket>>, socket: Socket, activityId: int)
    requires forall a :: a in connections ==> NoDuplicates(connections[a])
    requires forall a :: a in connections ==> socket !in connections[a]
    ensures var r := WithConnection(connections, socket, activityId);
            && (forall a :: a in r ==> NoDuplicates(r[a]))
            && (forall a, s :: s in ConnectionsOf(connections, a) ==> s in ConnectionsOf(r, a))
  {
    var xs := ConnectionsOf(connections, activityId);
    assert socket !in xs;
    forall p, q | 0 <= p < q < |xs + [socket]|
      ensures (xs + [socket])[p] != (xs + [socket])[q]
    {
      if q == |xs| {
        assert (xs + [socket])[p] == xs[p];
      }
    }
  }

  /** A disconnect keeps every list free of repeats, takes the socket out of the activity's
      list, and leaves every other socket in the lists it was in. */
  lemma WithoutConnectionKeeps(connections: map<int, seq<Socket>>, socket: Socket, activityId: int)
    requires forall a :: a in connections ==> NoDuplicates(connections[a])
    ensures var r := WithoutConnection(connections, socket, activityId);
            && (forall a :: a in r ==> NoDuplicates(r[a]))
            && socket !in ConnectionsOf(r, activityId)
            && (forall a, s :: s != socket && s in ConnectionsOf(connections, a) ==> s in ConnectionsOf(r, a))
  {
    if activityId in connections {
      RemoveFirstNoDuplicates(connections[activityId], socket);
    }
  }

  /** Disconnecting a socket the activity's list does not hold changes nothing. */
  lemma DisconnectAbsent(connections: map<int, seq<Socket>>, socket: Socket, activityId: int)
    requires socket !in ConnectionsOf(connections, activityId)
    ensures WithoutConnection(connections, socket, activityId) == connections
  {
  }

  // ---------------------------------------------------------------------------
  // Broadcast

  /** Every socket of the list can take a send. */
  predicate Reachable(sockets: seq<Socket>, gone: set<Socket>)
  {
    forall s :: s in sockets ==> s !in gone
  }

  /** The position of the first socket that cannot take a send, or the length when all can. */
  function FirstGone(sockets: seq<Socket>, gone: set<Socket>): (k: nat)
    ensures k <= |sockets|
    ensures forall i :: 0 <= i < k ==> sockets[i] !in gone
    ensures k < |sockets| ==> sockets[k] in gone
    ensures k == |sockets| <==> Reachable(sockets, gone)
  {
    if sockets == [] then 0
    else if sockets[0] in gone then 0
    else
      var k := FirstGone(sockets[1..], gone);
      assert forall i :: 1 <= i < |sockets| ==> sockets[i] == sockets[1..][i - 1];
      1 + k
  }

  /** What `broadcast` puts on the wire: the event to each socket of the list in order, up to
      the first send that raises, which ends the loop. */
  function Deliveries(sockets: seq<Socket>, e: Event, gone: set<Socket>): (out: seq<Output>)
    ensures |out| == FirstGone(sockets, gone)
    ensures forall i :: 0 <= i < |out| ==> out[i] == Sent(sockets[i], e)
  {
    if sockets == [] || sockets[0] in gone then []
    else
      var rest := Deliveries(sockets[1..], e, gone);
      assert forall i :: 1 <= i < |sockets| ==> sockets[i] == sockets[1..][i - 1];
      [Sent(sockets[0], e)] + rest
  }

  /** With no socket gone every socket of the list gets the event once, in list order. */
  lemma DeliveriesReachAll(sockets: seq<Socket>, e: Event, gone: set<Socket>)
    requires Reachable(sockets, gone)
    ensures Deliveries(sockets, e, gone) == seq(|sockets|, i requires 0 <= i < |sockets| => Sent(sockets[i], e))
  {
  }

  /** A socket that cannot take the send stops the delivery: it and every later socket get nothing. */
  lemma DeliveriesStopAtGone(sockets: seq<Socket>, e: Event, gone: set<Socket>, j: nat)
    requires j < |sockets| && sockets[j] in gone
    ensures |Deliveries(sockets, e, gone)| <= j
    ensures forall o :: o in Deliveries(sockets, e, gone) ==> o.socket !in gone
  {
  }

  /** Nothing is sent for an activity without a list. */
  lemma BroadcastUnknownActivity(connections: map<int, seq<Socket>>, activityId: int, e: Event, gone: set<Socket>)
    requires activityId !in connections
    ensures Deliveries(ConnectionsOf(connections, activityId), e, gone) == []
  {
  }

  /** Several broadcasts to the same list. */
  function Broadcasts(sockets: seq<Socket>, events: seq<Event>, gone: set<Socket>): seq<Output>
  {
    if events == [] then [] else Deliveries(sockets, events[0], gone) + Broadcasts(sockets, events[1..], gone)
  }

  /** One more broadcast appends its deliveries. */
  lemma {:induction false} BroadcastsAppend(sockets: seq<Socket>, events: seq<Event>, e: Event, gone: set<Socket>)
    ensures Broadcasts(sockets, events + [e], gone) == Broadcasts(sockets, events, gone) + Deliveries(sockets, e, gone)
  {
    if events == [] {
      assert [e][1..] == [];
    } else {
      assert (events + [e])[1..] == events[1..] + [e];
      BroadcastsAppend(sockets, events[1..], e, gone);
      AppendAssoc(Deliveries(sockets, events[0], gone), Broadcasts(sockets, events[1..], gone), Deliveries(sockets, e, gone));
    }
  }

  /** ConnectionManager. */
  class ConnectionManager {
    var activeConnections: map<int, seq<Socket>>

    constructor ()
      ensures activeConnections == map[]
    {
      activeConnections := map[];
    }

    /** connect. */
    method Connect(socket: Socket, activityId: int)
      modifies this
      ensures activeConnections == WithConnection(old(activeConnections), socket, activityId)
    {
      if activityId !in activeConnections {
        activeConnections := activeConnections[activityId := []];
      }
      activeConnections := activeConnections[activityId := activeConnections[activityId] + [socket]];
    }

    /** disconnect: a no-op when the activity or the socket is not there. */
    method Disconnect(socket: Socket, activityId: int)
      modifies this
      ensures activeConnections == WithoutConnection(old(activeConnections), socket, activityId)
    {
      if activityId in activeConnections {
        if socket in activeConnections[activityId] {
          activeConnections := activeConnections[activityId := RemoveFirst(activeConnections[activityId], socket)];
        }
      }
    }

    /** send_personal_message. */
    method SendPersonalMessage(e: Event, socket: Socket, transport: Transport) returns (ok: bool)
      modifies transport
      ensures ok <==> socket !in old(transport.gone)
      ensures transport.log == old(transport.log) + (if ok then [Sent(socket, e)] else [])
      ensures transport.gone == old(transport.gone)
    {
      ok := transport.SendEvent(socket, e);
    }

    /** broadcast: `ok` is false when a send raised, which ends the loop. */
    method Broadcast(e: Event, activityId: int, transport: Transport) returns (ok: bool)
      modifies transport
      ensures ok <==> Reachable(ConnectionsOf(activeConnections, activityId), old(transport.gone))
      ensures transport.log == old(transport.log) + Deliveries(ConnectionsOf(activeConnections, activityId), e, old(transport.gone))
      ensures transport.gone == old(transport.gone)
    {
      ok := true;
      if activityId in activeConnections {
        var sockets := activeConnections[activityId];
        ghost var gone := transport.gone;
        ghost var log0 := transport.log;
        var all := Deliveries(sockets, e, gone);
        for k := 0 to |sockets|
          invariant transport.gone == gone
          invariant k <= |all|
          invariant transport.log == log0 + all[..k]
        {
          var sent := transport.SendEvent(sockets[k], e);
          if !sent {
            assert |all| == k;
            assert all[..k] == all;
            return false;
          }
          assert k < |all|;
          assert all[..k + 1] == all[..k] + [all[k]];
          AppendAssoc(log0, all[..k], [all[k]]);
        }
        assert all[..|sockets|] == all;
      }
    }
  }

  // ---------------------------------------------------------------------------
  // The roulette

  /** `random.shuffle` as the permutation it applies: position i of the result holds element perm[i]. */
  predicate IsPermutation(perm: seq<nat>, n: nat)
  {
    && |perm| == n
    && (forall i :: 0 <= i < n ==> perm[i] < n)
    && (forall i, j :: 0 <= i < j < n ==> perm[i] != perm[j])
  }

  /** The shuffled list. */
  function Shuffle(vs: seq<AS.Variant>, perm: seq<nat>): (r: seq<AS.Variant>)
    requires IsPermutation(perm, |vs|)
    ensures |r| == |vs|
    ensures forall i :: 0 <= i < |r| ==> r[i] == vs[perm[i]]
  {
    seq(|vs|, i requires 0 <= i < |vs| => vs[perm[i]])
  }

  /** The eliminations of `while len(variants) > 1: variants.pop()`, while the list is longer
      than `m`: the last element first. */
  function Popped(shuffled: seq<AS.Variant>, m: nat): (events: seq<Event>)
    requires 1 <= m <= |shuffled|
  {
    seq(|shuffled| - m, k requires 0 <= k < |shuffled| - m =>
      VariantEliminated(shuffled[|shuffled| - 1 - k].userId, shuffled[|shuffled| - 1 - k].text))
  }

  /** The events start_roulette broadcasts over the shuffled variants, in order. */
  function RouletteEvents(shuffled: seq<AS.Variant>): seq<Event>
  {
    if shuffled == [] then [RouletteCancelled(NoVariantsReason)]
    else [RouletteStarted(|shuffled|)] + Popped(shuffled, 1) + [WinnerDeclared(shuffled[0].userId, shuffled[0].text)]
  }

  /** With no variants the roulette announces one cancellation and nothing else. */
  lemma NoVariantsCancels()
    ensures RouletteEvents([]) == [RouletteCancelled("No variants submitted")]
  {
  }

  /** Over N variants: `roulette_started` with N, then N-1 eliminations taking the shuffled list
      from its end down to its second element, then the first element as the winner. */
  lemma RouletteShape(shuffled: seq<AS.Variant>)
    requires shuffled != []
    ensures var events := RouletteEvents(shuffled); var n := |shuffled|;
            && |events| == n + 1
            && events[0] == RouletteStarted(n)
            && (forall k :: 1 <= k < n ==> events[k] == VariantEliminated(shuffled[n - k].userId, shuffled[n - k].text))
            && events[n] == WinnerDeclared(shuffled[0].userId, shuffled[0].text)
            && (forall k :: 1 <= k < n ==> events[k].VariantEliminated?)
  {
  }

  /** Over the input list: the eliminated and the winner come from pairwise distinct positions
      of what get_activity_variants returned, so no variant is drawn twice. */
  lemma RouletteDrawsEachOnce(vs: seq<AS.Variant>, perm: seq<nat>, k1: nat, k2: nat)
    requires IsPermutation(perm, |vs|)
    requires 0 <= k1 < k2 < |vs|
    ensures var events := RouletteEvents(Shuffle(vs, perm)); var n := |vs|;
            && (k1 >= 1 ==> events[k1] == VariantEliminated(vs[perm[n - k1]].userId, vs[perm[n - k1]].text))
            && events[k2] == VariantEliminated(vs[perm[n - k2]].userId, vs[perm[n - k2]].text)
            && events[n] == WinnerDeclared(vs[perm[0]].userId, vs[perm[0]].text)
            && perm[n - k2] != perm[0]
            && (k1 >= 1 ==> perm[n - k1] != perm[n - k2] && perm[n - k1] != perm[0])
  {
    RouletteShape(Shuffle(vs, perm));
  }

  /** One more pop appends one elimination, of the list's current last element. */
  lemma PoppedStep(shuffled: seq<AS.Variant>, m: nat)
    requires 2 <= m <= |shuffled|
    ensures Popped(shuffled, m - 1) ==
            Popped(shuffled, m) + [VariantEliminated(shuffled[m - 1].userId, shuffled[m - 1].text)]
  {
  }

  // ---------------------------------------------------------------------------
  // The timer registry

  /** An entry of `activity_timers`: the task of start_variant_submission_timer before its
      first broadcast, asleep for its 60 seconds, or ended by an exception it raised, which
      leaves the entry in place. */
  datatype TimerTask = Starting | Sleeping | Dead

  /** `start_game` from the creator: a task is registered only when the activity has none. */
  function RegisterTimer(timers: map<int, TimerTask>, activityId: int): (r: map<int, TimerTask>)
    ensures r.Keys == timers.Keys + {activityId}
    ensures forall a :: a in timers ==> r[a] == timers[a]
    ensures activityId !in timers ==> r[activityId] == Starting
  {
    if activityId in timers then timers else timers[activityId := Starting]
  }

  /** An entry already there, even that of a task that died, keeps a second start from
      registering anything; so starting twice is starting once. */
  lemma RegisterTimerOnce(timers: map<int, TimerTask>, activityId: int)
    ensures RegisterTimer(RegisterTimer(timers, activityId), activityId) == RegisterTimer(timers, activityId)
    ensures activityId in timers ==> RegisterTimer(timers, activityId) == timers
  {
  }

  /** The socket lists after the `finally` block, which does nothing for activity id 0. */
  function FinallyConnections(connections: map<int, seq<Socket>>, socket: Socket, activityId: int): map<int, seq<Socket>>
  {
    if activityId != 0 then WithoutConnection(connections, socket, activityId) else connections
  }

  /** The registry after the `finally` block: the task of an activity whose list is left
      empty is cancelled and its entry deleted. */
  function CleanupTimers(timers: map<int, TimerTask>, connections: map<int, seq<Socket>>, activityId: int): (r: map<int, TimerTask>)
    ensures r.Keys <= timers.Keys
    ensures forall a :: a in r ==> r[a] == timers[a]
    ensures forall a :: a in timers && a != activityId ==> a in r
    ensures activityId in r <==>
              activityId in timers && !(activityId != 0 && activityId in connections && connections[activityId] == [])
  {
    if activityId != 0 && activityId in connections && connections[activityId] == [] then timers - {activityId}
    else timers
  }

  /** The last socket of an activity to leave takes the timer with it; while others remain,
      the timer stays. */
  lemma LastSocketCancelsTimer(timers: map<int, TimerTask>, connections: map<int, seq<Socket>>,
                               socket: Socket, activityId: int)
    requires activityId != 0 && activityId in connections
    ensures var after := FinallyConnections(connections, socket, activityId);
            && (connections[activityId] == [socket] ==> activityId !in CleanupTimers(timers, after, activityId))
            && (|connections[activityId]| >= 2 && activityId in timers ==>
                  CleanupTimers(timers, after, activityId) == timers)
  {
    var after := FinallyConnections(connections, socket, activityId);
    if connections[activityId] == [socket] {
      assert RemoveFirst([socket], socket) == [];
    }
    if |connections[activityId]| >= 2 {
      assert |after[activityId]| >= 1;
    }
  }

  // ---------------------------------------------------------------------------
  // The endpoint

  /** An open connection past its admission: the locals of its `websocket_endpoint` call. */
  datatype Handler = Handler(activityId: int, user: UserInfo, activity: AS.ActivityDto)

  /** The `payload` of a message as `.get` sees it. */
  datatype Payload = PayloadObject(variant: Option<string>) | PayloadOther

  /** A text frame from the client as `json.loads` and `.get` see it. */
  datatype Incoming = Malformed | NonObject | Request(action: Option<string>, payload: Payload)

  /** The actions the receive loop acts on; any other is read and ignored. */
  predicate KnownAction(action: Option<string>)
  {
    action == Some("ping") || action == Some("get_users") || action == Some("start_game") || action == Some("submit_variant")
  }

  /** The close reason after a failed join: the two service exceptions the endpoint catches,
      and the database error of a second join, which the generic handler catches. */
  function JoinCloseReason(e: AS.ActivityError): Reason
  {
    match e
    case ActivityNotFound(_) => Text("Activity not found")
    case ActivityNotInProgress(_) => Text("Activity is not in progress")
    case _ => ErrorText(IntegrityError)
  }

  /** The three frames an admitted connection gets before anyone else hears of it. */
  function Welcome(socket: Socket, activityId: int, activity: AS.ActivityDto, roster: seq<UserInfo>): seq<Output>
  {
    [ Sent(socket, ActivityState(activity.status, activity.winnerUserId, activity.creatorUserId)),
      Sent(socket, UsersInActivity(roster)),
      Sent(socket, Connected(ConnectedMessage(activityId))) ]
  }

  /** The module-level state of ws.py (`manager`, `activity_timers`), the services it calls and
      the handlers of the connections it serves. */
  class Coordinator {
    const manager: ConnectionManager
    const transport: Transport
    const activities: AS.ActivityService
    const rooms: RS.RoomService
    var timers: map<int, TimerTask>
    var handlers: map<Socket, Handler>

    /** The services' own invariants; a socket appears at most once in a list, and every
        admitted socket is in its activity's list. */
    ghost predicate Valid()
      reads this, manager, activities, rooms
    {
      && activities.Valid() && rooms.Valid()
      && (forall a :: a in manager.activeConnections ==> NoDuplicates(manager.activeConnections[a]))
      && (forall s :: s in handlers ==> s in ConnectionsOf(manager.activeConnections, handlers[s].activityId))
    }

    constructor (activities: AS.ActivityService, rooms: RS.RoomService)
      requires activities.Valid() && rooms.Valid()
      ensures Valid()
      ensures this.activities == activities && this.rooms == rooms
      ensures fresh(manager) && fresh(transport)
      ensures manager.activeConnections == map[] && transport.log == [] && timers == map[] && handlers == map[]
    {
      this.activities := activities;
      this.rooms := rooms;
      manager := new ConnectionManager();
      transport := new Transport();
      timers := map[];
      handlers := map[];
    }

    /** A new WebSocket: no handler and in no list. */
    ghost predicate FreshSocket(socket: Socket)
      reads this, manager
    {
      && socket !in handlers
      && forall a :: a in manager.activeConnections ==> socket !in manager.activeConnections[a]
    }

    /** The `finally` block. */
    method Finally(socket: Socket, activityId: int)
      requires Valid() && socket !in handlers
      modifies this, manager
      ensures Valid()
      ensures manager.activeConnections == FinallyConnections(old(manager.activeConnections), socket, activityId)
      ensures timers == CleanupTimers(old(timers), manager.activeConnections, activityId)
      ensures handlers == old(handlers)
    {
      if activityId != 0 {
        WithoutConnectionKeeps(manager.activeConnections, socket, activityId);
        manager.Disconnect(socket, activityId);
        if activityId in manager.activeConnections && manager.activeConnections[activityId] == [] {
          if activityId in timers {
            timers := timers - {activityId};
          }
        }
      }
    }

    /** The generic `except Exception` handler, then `finally`: the socket is closed with 4000
        and the exception's text, and its handler ends. */
    method Abort(socket: Socket, activityId: int, reason: Reason)
      requires Valid()
      modifies this, manager, transport
      ensures Valid()
      ensures transport.log == old(transport.log) + CloseOutput(socket, ActivityClose, reason, old(transport.gone))
      ensures transport.gone == old(transport.gone) + {socket}
      ensures manager.activeConnections == FinallyConnections(old(manager.activeConnections), socket, activityId)
      ensures timers == CleanupTimers(old(timers), manager.activeConnections, activityId)
      ensures handlers == old(handlers) - {socket}
    {
      handlers := handlers - {socket};
      transport.Close(socket, ActivityClose, reason);
      Finally(socket, activityId);
    }

    /** The first admission check that fails, as the close code and reason it leads to: the
        session, the user, the activity (whose ActivityNotFound the outer `except` handles),
        then the room membership. */
    ghost function Rejection(activityId: int, session: Option<int>, lookup: int -> Option<UserInfo>): Option<(int, Reason)>
      reads this, activities, rooms
    {
      if session.None? then Some((PolicyViolation, Text("Authentication failed")))
      else if lookup(session.value).None? then Some((PolicyViolation, Text("User not found")))
      else if activityId !in activities.activities then Some((ActivityClose, Text("Activity not found")))
      else
        match rooms.ValidateUsersRoomChecked(activities.activities[activityId].roomId, lookup(session.value).value.id)
        case Some(e) => Some((RoomClose, Text(RS.MessageText(e))))
        case None => None
    }

    /** The same checks with get_activity_by_id as written: it raises TypeError for every
        activity that exists, which the inner `except ActivityNotFound` lets through to the
        outer `except Exception`, so the socket is closed with 4000 and the TypeError's text
        and the room check is never reached. */
    ghost function RejectionAsWritten(activityId: int, session: Option<int>, lookup: int -> Option<UserInfo>): Option<(int, Reason)>
      reads this, activities
    {
      if session.None? then Some((PolicyViolation, Text("Authentication failed")))
      else if lookup(session.value).None? then Some((PolicyViolation, Text("User not found")))
      else
        match activities.GetActivityByIdAsWritten(activityId)
        case Failure(e) =>
          if e.ActivityNotFound? then Some((ActivityClose, Text("Activity not found")))
          else Some((ActivityClose, Text(AS.MessageText(e))))
        case Success(_) => None
    }

    /** As written no socket is ever admitted: the checks before the activity lookup close it
        as the corrected ones do, and every socket that gets past them, including each one the
        corrected checks admit, is closed with 4000 and the TypeError's text. */
    lemma NoSocketAdmittedAsWritten(activityId: int, session: Option<int>, lookup: int -> Option<UserInfo>)
      ensures RejectionAsWritten(activityId, session, lookup).Some?
      ensures session.None? || lookup(session.value).None? || activityId !in activities.activities ==>
                RejectionAsWritten(activityId, session, lookup) == Rejection(activityId, session, lookup)
      ensures session.Some? && lookup(session.value).Some? && activityId in activities.activities ==>
                RejectionAsWritten(activityId, session, lookup) ==
                Some((ActivityClose, Text("ActivityDTO.__init__() missing 1 required positional argument: 'creator_user_id'")))
      ensures Rejection(activityId, session, lookup).None? ==>
                RejectionAsWritten(activityId, session, lookup) ==
                Some((ActivityClose, Text(AS.MessageText(AS.MissingCreatorArgument))))
    {
      var text := AS.MessageText(AS.MissingCreatorArgument);
      assert text == "ActivityDTO.__init__() missing 1 required positional argument: 'creator_user_id'";
      if session.Some? && lookup(session.value).Some? && activityId in activities.activities {
        assert activities.GetActivityByIdAsWritten(activityId) == Failure(AS.MissingCreatorArgument);
        assert RejectionAsWritten(activityId, session, lookup) == Some((ActivityClose, Text(text)));
      }
    }

    /** The checks before `connect`; a failed one closes the socket and runs `finally`, which
        finds the new socket in no list. `session` is the user id of the session cookie's
        session, `lookup` is get_user_by_id. The activity and room checks are the corrected
        GetActivityById and ValidateUsersRoomChecked, so that the session after admission can
        be modelled; RejectionAsWritten gives the outcome of the checks as written. */
    method Admit(socket: Socket, activityId: int, session: Option<int>, lookup: int -> Option<UserInfo>)
      returns (admission: Option<(UserInfo, AS.ActivityDto)>)
      requires Valid() && FreshSocket(socket)
      modifies this, manager, transport
      ensures Valid() && FreshSocket(socket)
      ensures admission.None? <==> Rejection(activityId, session, lookup).Some?
      ensures admission.Some? ==>
                && session.Some? && admission.value.0 == lookup(session.value).value
                && activities.GetActivityById(activityId) == Success(admission.value.1)
                && transport.log == old(transport.log) && transport.gone == old(transport.gone)
                && timers == old(timers)
      ensures admission.None? ==>
                var (code, reason) := Rejection(activityId, session, lookup).value;
                && transport.log == old(transport.log) + CloseOutput(socket, code, reason, old(transport.gone))
                && transport.gone == old(transport.gone) + {socket}
                && timers == CleanupTimers(old(timers), old(manager.activeConnections), activityId)
      ensures manager.activeConnections == old(manager.activeConnections)
      ensures handlers == old(handlers)
    {
      if session.None? {
        transport.Close(socket, PolicyViolation, Text("Authentication failed"));
        Reject(socket, activityId);
        return None;
      }
      var user := lookup(session.value);
      if user.None? {
        transport.Close(socket, PolicyViolation, Text("User not found"));
        Reject(socket, activityId);
        return None;
      }
      var activity := activities.GetActivityById(activityId);
      if activity.Failure? {
        transport.Close(socket, ActivityClose, Text("Activity not found"));
        Reject(socket, activityId);
        return None;
      }
      var check := rooms.ValidateUsersRoomChecked(activity.value.roomId, user.value.id);
      if check.Some? {
        transport.Close(socket, RoomClose, Text(RS.MessageText(check.value)));
        Reject(socket, activityId);
        return None;
      }
      admission := Some((user.value, activity.value));
    }

    /** `finally` for a socket in no list: only the registry can change. */
    method Reject(socket: Socket, activityId: int)
      requires Valid() && FreshSocket(socket)
      modifies this, manager
      ensures Valid() && FreshSocket(socket)
      ensures manager.activeConnections == old(manager.activeConnections)
      ensures timers == CleanupTimers(old(timers), old(manager.activeConnections), activityId)
      ensures handlers == old(handlers)
    {
      DisconnectAbsent(manager.activeConnections, socket, activityId);
      Finally(socket, activityId);
    }

    /** websocket_endpoint up to its receive loop: the admission checks, `connect`, the join,
        the three personal frames, `user_joined` to everyone connected and the user list.
        `roster` is what get_users_in_activity returns, None where it raises; the service
        defines no such method. */
    method Open(socket: Socket, activityId: int, session: Option<int>, lookup: int -> Option<UserInfo>,
                roster: Option<seq<UserInfo>>)
      returns (admitted: bool)
      requires Valid() && FreshSocket(socket)
      modifies this, manager, transport, activities
      ensures Valid()
      ensures admitted <==> socket in handlers
      ensures !admitted ==> handlers == old(handlers)
      ensures old(Rejection(activityId, session, lookup)).Some? ==>
                var (code, reason) := old(Rejection(activityId, session, lookup)).value;
                && !admitted
                && transport.log == old(transport.log) + CloseOutput(socket, code, reason, old(transport.gone))
                && manager.activeConnections == old(manager.activeConnections)
                && activities.members == old(activities.members)
      ensures admitted ==>
                var user := lookup(session.value);
                var h := handlers[socket];
                var sockets := old(ConnectionsOf(manager.activeConnections, activityId)) + [socket];
                && session.Some? && user.Some? && h.user == user.value && h.activityId == activityId
                && old(activities.GetActivityById(activityId)) == Success(h.activity)
                && handlers == old(handlers)[socket := h]
                && manager.activeConnections == WithConnection(old(manager.activeConnections), socket, activityId)
                && activities.members == old(activities.members) + [AS.Membership(user.value.id, activityId)]
                && roster.Some?
                && transport.log == old(transport.log) + Welcome(socket, activityId, h.activity, roster.value)
                     + Deliveries(sockets, UserJoined(user.value.id, user.value.firstName, user.value.avatarUrl), old(transport.gone))
                     + Deliveries(sockets, UsersInActivity(roster.value), old(transport.gone))
      ensures activities.activities == old(activities.activities) && activities.variants == old(activities.variants)
    {
      var admission := Admit(socket, activityId, session, lookup);
      if admission.None? {
        return false;
      }
      admitted := Join(socket, activityId, admission.value.0, admission.value.1, roster);
    }

    /** `connect`, then join_activity; a failed join closes the socket and runs `finally`,
        which takes the socket out of the list again. */
    method Join(socket: Socket, activityId: int, user: UserInfo, activity: AS.ActivityDto,
                roster: Option<seq<UserInfo>>)
      returns (admitted: bool)
      requires Valid() && FreshSocket(socket)
      requires activities.GetActivityById(activityId) == Success(activity)
      modifies this, manager, transport, activities
      ensures Valid()
      ensures admitted <==> socket in handlers
      ensures !admitted ==> handlers == old(handlers)
      ensures admitted ==>
                && handlers == old(handlers)[socket := Handler(activityId, user, activity)]
                && manager.activeConnections == WithConnection(old(manager.activeConnections), socket, activityId)
                && activities.members == old(activities.members) + [AS.Membership(user.id, activityId)]
                && roster.Some?
                && transport.log == old(transport.log) + Welcome(socket, activityId, activity, roster.value)
                     + Deliveries(old(ConnectionsOf(manager.activeConnections, activityId)) + [socket],
                                  UserJoined(user.id, user.firstName, user.avatarUrl), old(transport.gone))
                     + Deliveries(old(ConnectionsOf(manager.activeConnections, activityId)) + [socket],
                                  UsersInActivity(roster.value), old(transport.gone))
      ensures activities.activities == old(activities.activities) && activities.variants == old(activities.variants)
    {
      WithConnectionKeeps(manager.activeConnections, socket, activityId);
      manager.Connect(socket, activityId);
      var joined := activities.JoinActivity(user.id, activityId);
      if joined.Failure? {
        transport.Close(socket, ActivityClose, JoinCloseReason(joined.error));
        Finally(socket, activityId);
        return false;
      }
      admitted := Greet(socket, activityId, user, activity, roster);
    }

    /** After a successful join: the activity state, the user list and the `connected` message
        to the socket, `user_joined` to all, then send_users_in_activity; the handler then
        enters its receive loop. */
    method Greet(socket: Socket, activityId: int, user: UserInfo, activity: AS.ActivityDto,
                 roster: Option<seq<UserInfo>>)
      returns (admitted: bool)
      requires Valid() && socket !in handlers
      requires socket in ConnectionsOf(manager.activeConnections, activityId)
      modifies this, manager, transport
      ensures Valid()
      ensures admitted <==>
                socket !in old(transport.gone) && roster.Some?
                && Reachable(old(ConnectionsOf(manager.activeConnections, activityId)), old(transport.gone))
      ensures admitted ==>
                && handlers == old(handlers)[socket := Handler(activityId, user, activity)]
                && manager.activeConnections == old(manager.activeConnections)
                && timers == old(timers)
                && roster.Some?
                && transport.log == old(transport.log) + Welcome(socket, activityId, activity, roster.value)
                     + Deliveries(old(ConnectionsOf(manager.activeConnections, activityId)),
                                  UserJoined(user.id, user.firstName, user.avatarUrl), old(transport.gone))
                     + Deliveries(old(ConnectionsOf(manager.activeConnections, activityId)),
                                  UsersInActivity(roster.value), old(transport.gone))
      ensures !admitted ==> handlers == old(handlers)
    {
      var sentState := transport.SendEvent(socket, ActivityState(activity.status, activity.winnerUserId, activity.creatorUserId));
      if !sentState || roster.None? {
        // A send that raises, or the missing get_users_in_activity, reaches the generic handler.
        Abort(socket, activityId, if !sentState then ErrorText(SendFailed) else ErrorText(AttributeError("get_users_in_activity")));
        return false;
      }
      SendListAndWelcome(socket, activityId, roster.value);
      assert transport.log == old(transport.log) + Welcome(socket, activityId, activity, roster.value);
      admitted := Announce(socket, activityId, user, activity, roster.value);
    }

    /** The user list and the `connected` message to a socket that just took a frame. */
    method SendListAndWelcome(socket: Socket, activityId: int, roster: seq<UserInfo>)
      requires socket !in transport.gone
      modifies transport
      ensures transport.log == old(transport.log) +
                [Sent(socket, UsersInActivity(roster)), Sent(socket, Connected(ConnectedMessage(activityId)))]
      ensures transport.gone == old(transport.gone)
    {
      var sentUsers := transport.SendEvent(socket, UsersInActivity(roster));
      var sentConnected := manager.SendPersonalMessage(Connected(ConnectedMessage(activityId)), socket, transport);
      // The socket took the state frame and nothing since has ended its connection.
      assert sentUsers && sentConnected;
    }

    /** `user_joined` to everyone connected, then send_users_in_activity; the handler then
        enters its receive loop. */
    method Announce(socket: Socket, activityId: int, user: UserInfo, activity: AS.ActivityDto, roster: seq<UserInfo>)
      returns (admitted: bool)
      requires Valid() && socket !in handlers
      requires socket in ConnectionsOf(manager.activeConnections, activityId)
      modifies this, manager, transport
      ensures Valid()
      ensures admitted <==> Reachable(old(ConnectionsOf(manager.activeConnections, activityId)), old(transport.gone))
      ensures admitted ==>
                && handlers == old(handlers)[socket := Handler(activityId, user, activity)]
                && manager.activeConnections == old(manager.activeConnections)
                && timers == old(timers)
                && transport.log == old(transport.log)
                     + Deliveries(old(ConnectionsOf(manager.activeConnections, activityId)),
                                  UserJoined(user.id, user.firstName, user.avatarUrl), old(transport.gone))
                     + Deliveries(old(ConnectionsOf(manager.activeConnections, activityId)),
                                  UsersInActivity(roster), old(transport.gone))
      ensures !admitted ==> handlers == old(handlers)
    {
      var sentJoined := manager.Broadcast(UserJoined(user.id, user.firstName, user.avatarUrl), activityId, transport);
      if !sentJoined {
        Abort(socket, activityId, ErrorText(SendFailed));
        return false;
      }
      SendUsersInActivity(activityId, Some(roster));
      handlers := handlers[socket := Handler(activityId, user, activity)];
      admitted := true;
    }

    /** send_users_in_activity: whatever it raises, the missing service method or a send, is
        logged and swallowed. */
    method SendUsersInActivity(activityId: int, roster: Option<seq<UserInfo>>)
      modifies transport
      ensures roster.None? ==> transport.log == old(transport.log)
      ensures roster.Some? ==>
                transport.log == old(transport.log) +
                  Deliveries(ConnectionsOf(manager.activeConnections, activityId), UsersInActivity(roster.value), old(transport.gone))
      ensures transport.gone == old(transport.gone)
    {
      if roster.Some? {
        var delivered := manager.Broadcast(UsersInActivity(roster.value), activityId, transport);
      }
    }
  
    // -------------------------------------------------------------------------
    // The receive loop

    /** One turn of the `while True` loop of an admitted socket: parse the frame, then act on
        `ping`, `get_users`, `start_game` and `submit_variant`; any other action is ignored. */
    method Receive(socket: Socket, frame: Incoming, roster: Option<seq<UserInfo>>)
      requires Valid() && socket in handlers
      modifies this, manager, transport, activities
      ensures Valid()
      ensures (frame.Malformed? || frame.NonObject?) ==>
                && handlers == old(handlers) - {socket}
                && transport.log == old(transport.log) + CloseOutput(socket, ActivityClose,
                     if frame.Malformed? then ErrorText(JsonDecodeError) else ErrorText(AttributeError("get")),
                     old(transport.gone))
      ensures frame.Request? && !KnownAction(frame.action) ==>
                && transport.log == old(transport.log) && handlers == old(handlers) && timers == old(timers)
                && manager.activeConnections == old(manager.activeConnections)
      ensures frame.Request? && frame.action == Some("get_users") ==>
                && handlers == old(handlers) && timers == old(timers)
                && (roster.None? ==> transport.log == old(transport.log))
                && (roster.Some? ==>
                      transport.log == old(transport.log) +
                        Deliveries(ConnectionsOf(manager.activeConnections, old(handlers)[socket].activityId),
                                   UsersInActivity(roster.value), old(transport.gone)))
      ensures !(frame.Request? && frame.action == Some("submit_variant")) ==> activities.variants == old(activities.variants)
      ensures activities.activities == old(activities.activities) && activities.members == old(activities.members)
    {
      var h := handlers[socket];
      match frame
      case Malformed =>
        Abort(socket, h.activityId, ErrorText(JsonDecodeError));
      case NonObject =>
        Abort(socket, h.activityId, ErrorText(AttributeError("get")));
      case Request(action, payload) =>
        if action == Some("ping") {
          Ping(socket);
        } else if action == Some("get_users") {
          SendUsersInActivity(h.activityId, roster);
        } else if action == Some("start_game") {
          StartGame(socket);
        } else if action == Some("submit_variant") {
          SubmitVariantAction(socket, payload);
        }
    }

    /** `ping`: a personal `pong`. */
    method Ping(socket: Socket)
      requires Valid() && socket in handlers
      modifies this, manager, transport
      ensures Valid()
      ensures socket !in old(transport.gone) ==>
                && transport.log == old(transport.log) + [Sent(socket, Pong)]
                && handlers == old(handlers) && timers == old(timers)
                && manager.activeConnections == old(manager.activeConnections)
      ensures socket in old(transport.gone) ==>
                transport.log == old(transport.log) && handlers == old(handlers) - {socket}
    {
      var ok := manager.SendPersonalMessage(Pong, socket, transport);
      if !ok {
        Abort(socket, handlers[socket].activityId, ErrorText(SendFailed));
      }
    }

    /** `start_game`: the creator registers a timer task unless the activity has an entry;
        anyone else gets a personal error and registers nothing. The `except` around the
        registration catches nothing, since nothing in it raises. */
    method StartGame(socket: Socket)
      requires Valid() && socket in handlers
      modifies this, manager, transport
      ensures Valid()
      ensures var h := old(handlers)[socket];
              h.user.id == h.activity.creatorUserId ==>
                && timers == RegisterTimer(old(timers), h.activityId)
                && transport.log == old(transport.log) && handlers == old(handlers)
                && manager.activeConnections == old(manager.activeConnections)
      ensures var h := old(handlers)[socket];
              h.user.id != h.activity.creatorUserId ==>
                && timers.Keys <= old(timers).Keys
                && (socket !in old(transport.gone) ==>
                      && transport.log == old(transport.log) + [Sent(socket, Error(NotCreatorMessage))]
                      && timers == old(timers) && handlers == old(handlers))
    {
      var h := handlers[socket];
      if h.user.id == h.activity.creatorUserId {
        if h.activityId !in timers {
          timers := timers[h.activityId := Starting];
        }
      } else {
        var ok := transport.SendEvent(socket, Error(NotCreatorMessage));
        if !ok {
          Abort(socket, h.activityId, ErrorText(SendFailed));
        }
      }
    }

    /** Whether submit_variant stores a variant of the user for the activity. */
    ghost predicate AcceptsVariant(activityId: int, userId: int)
      reads activities
    {
      && activityId in activities.activities
      && activities.activities[activityId].status == InProgress
      && !AS.AnyByUser(AS.VariantsOf(activities.variants, activityId), userId)
    }

    /** `submit_variant`: a missing or empty variant does nothing; a payload that is not an
        object makes `.get` raise. */
    method SubmitVariantAction(socket: Socket, payload: Payload)
      requires Valid() && socket in handlers
      modifies this, manager, transport, activities
      ensures Valid()
      ensures payload.PayloadOther? ==>
                && activities.variants == old(activities.variants)
                && handlers == old(handlers) - {socket}
                && transport.log == old(transport.log) +
                     CloseOutput(socket, ActivityClose, ErrorText(AttributeError("get")), old(transport.gone))
      ensures payload.PayloadObject? && (payload.variant.None? || payload.variant.value == "") ==>
                && activities.variants == old(activities.variants)
                && transport.log == old(transport.log) && handlers == old(handlers) && timers == old(timers)
                && manager.activeConnections == old(manager.activeConnections)
      ensures payload.PayloadObject? && payload.variant.Some? && payload.variant.value != "" ==>
                SubmittedAsSpecified(socket, payload.variant.value, old(handlers)[socket], old(activities.variants),
                                     old(AcceptsVariant(handlers[socket].activityId, handlers[socket].user.id)),
                                     old(activities.activities), old(transport.log), old(transport.gone),
                                     old(ConnectionsOf(manager.activeConnections, handlers[socket].activityId)))
      ensures activities.activities == old(activities.activities) && activities.members == old(activities.members)
    {
      var h := handlers[socket];
      match payload
      case PayloadOther =>
        Abort(socket, h.activityId, ErrorText(AttributeError("get")));
      case PayloadObject(variant) =>
        if variant.Some? && variant.value != "" {
          SubmitText(socket, variant.value);
        }
    }

    /** The outcome of a submission of `text`: `variant_submitted` to everyone only once the
        service stored the variant; ActivityNotFound and ActivityNotInProgress as a personal
        error; UserAlreadySubmittedVariant, which the endpoint does not catch, through the
        generic handler. */
    ghost predicate SubmittedAsSpecified(socket: Socket, text: string, h: Handler, variants0: seq<AS.Variant>,
                                         accepts: bool, activities0: map<int, AS.Activity>,
                                         log0: seq<Output>, gone0: set<Socket>, sockets: seq<Socket>)
      reads this, transport, activities
    {
      var a := h.activityId;
      var u := h.user.id;
      if accepts then
        && activities.variants == variants0 + [AS.Variant(u, a, text)]
        && transport.log == log0 + Deliveries(sockets, VariantSubmitted(u, text, h.user.firstName, h.user.avatarUrl), gone0)
             + (if Reachable(sockets, gone0) then [] else CloseOutput(socket, ActivityClose, ErrorText(SendFailed), gone0))
        && (Reachable(sockets, gone0) <==> socket in handlers)
      else
        && activities.variants == variants0
        && if a in activities0 && activities0[a].status == InProgress then
             && transport.log == log0 + CloseOutput(socket, ActivityClose,
                  Text(AS.MessageText(AS.UserAlreadySubmittedVariant(a, u))), gone0)
             && socket !in handlers
           else
             var e := if a !in activities0 then AS.ActivityNotFound(a) else AS.ActivityNotInProgress(a);
             && (socket !in gone0 ==> transport.log == log0 + [Sent(socket, Error(AS.MessageText(e)))] && socket in handlers)
             && (socket in gone0 ==> transport.log == log0 && socket !in handlers)
    }

    /** A nonempty variant handed to ActivityService.submit_variant. */
    method SubmitText(socket: Socket, text: string)
      requires Valid() && socket in handlers
      modifies this, manager, transport, activities
      ensures Valid()
      ensures SubmittedAsSpecified(socket, text, old(handlers)[socket], old(activities.variants),
                                   old(AcceptsVariant(handlers[socket].activityId, handlers[socket].user.id)),
                                   old(activities.activities), old(transport.log), old(transport.gone),
                                   old(ConnectionsOf(manager.activeConnections, handlers[socket].activityId)))
      ensures handlers.Keys <= old(handlers).Keys
      ensures activities.activities == old(activities.activities) && activities.members == old(activities.members)
    {
      var h := handlers[socket];
      var r := activities.SubmitVariant(h.user.id, h.activityId, text);
      if r.Success? {
        AnnounceVariant(socket, text);
      } else if r.error.ActivityNotFound? || r.error.ActivityNotInProgress? {
        ReportRefusal(socket, r.error);
      } else {
        Abort(socket, h.activityId, Text(AS.MessageText(r.error)));
      }
    }

    /** `variant_submitted` to everyone in the activity; a send that raises ends the handler
        through the generic `except`. */
    method AnnounceVariant(socket: Socket, text: string)
      requires Valid() && socket in handlers
      modifies this, manager, transport
      ensures Valid()
      ensures var h := old(handlers)[socket];
              var sockets := old(ConnectionsOf(manager.activeConnections, handlers[socket].activityId));
              && transport.log == old(transport.log)
                   + Deliveries(sockets, VariantSubmitted(h.user.id, text, h.user.firstName, h.user.avatarUrl), old(transport.gone))
                   + (if Reachable(sockets, old(transport.gone)) then []
                      else CloseOutput(socket, ActivityClose, ErrorText(SendFailed), old(transport.gone)))
              && (Reachable(sockets, old(transport.gone)) <==> socket in handlers)
      ensures handlers.Keys <= old(handlers).Keys
    {
      var h := handlers[socket];
      var ok := manager.Broadcast(VariantSubmitted(h.user.id, text, h.user.firstName, h.user.avatarUrl), h.activityId, transport);
      if !ok {
        Abort(socket, h.activityId, ErrorText(SendFailed));
      } else {
        assert transport.log == transport.log + [];
      }
    }

    /** ActivityNotFound or ActivityNotInProgress from submit_variant: a personal error frame. */
    method ReportRefusal(socket: Socket, e: AS.ActivityError)
      requires Valid() && socket in handlers
      modifies this, manager, transport
      ensures Valid()
      ensures socket !in old(transport.gone) ==>
                transport.log == old(transport.log) + [Sent(socket, Error(AS.MessageText(e)))] && socket in handlers
      ensures socket in old(transport.gone) ==> transport.log == old(transport.log) && socket !in handlers
      ensures handlers.Keys <= old(handlers).Keys
    {
      var ok := transport.SendEvent(socket, Error(AS.MessageText(e)));
      if !ok {
        Abort(socket, handlers[socket].activityId, ErrorText(SendFailed));
      }
    }

    // -------------------------------------------------------------------------
    // Disconnect

    /** The `except WebSocketDisconnect` handler, then `finally`, once the client of an
        admitted socket went away: the socket leaves the list, exit_activity (which the
        service does not define) raises and is logged, `user_left` goes to the sockets left,
        then the user list. A send that raises inside the handler skips the user list and
        propagates once `finally` has run. */
    method PeerDisconnect(socket: Socket, roster: Option<seq<UserInfo>>)
      requires Valid() && socket in handlers && socket in transport.gone
      modifies this, manager, transport
      ensures Valid()
      ensures handlers == old(handlers) - {socket}
      ensures var h := old(handlers)[socket];
              var remaining := RemoveFirst(old(ConnectionsOf(manager.activeConnections, h.activityId)), socket);
              && socket !in ConnectionsOf(manager.activeConnections, h.activityId)
              && manager.activeConnections == WithoutConnection(old(manager.activeConnections), socket, h.activityId)
              && timers == CleanupTimers(old(timers), manager.activeConnections, h.activityId)
              && transport.log == old(transport.log)
                   + Deliveries(remaining, UserLeft(h.user.id, h.user.firstName), old(transport.gone))
                   + (if Reachable(remaining, old(transport.gone)) && roster.Some?
                      then Deliveries(remaining, UsersInActivity(roster.value), old(transport.gone)) else [])
    {
      var h := handlers[socket];
      Detach(socket);
      AnnounceLeave(h.activityId, h.user, roster);
      DisconnectAbsent(manager.activeConnections, socket, h.activityId);
      Finally(socket, h.activityId);
    }

    /** The handler ends and `manager.disconnect` takes the socket out of its list. */
    method Detach(socket: Socket)
      requires Valid() && socket in handlers
      modifies this, manager
      ensures Valid()
      ensures handlers == old(handlers) - {socket}
      ensures var a := old(handlers)[socket].activityId;
              && manager.activeConnections == WithoutConnection(old(manager.activeConnections), socket, a)
              && socket !in ConnectionsOf(manager.activeConnections, a)
      ensures timers == old(timers)
    {
      var a := handlers[socket].activityId;
      handlers := handlers - {socket};
      WithoutConnectionKeeps(manager.activeConnections, socket, a);
      manager.Disconnect(socket, a);
    }

    /** `user_left`, then, when no send raised, the user list, for an activity that still has
        a list (for an admitted socket it always has: connect created it and no step deletes
        one). */
    method AnnounceLeave(activityId: int, user: UserInfo, roster: Option<seq<UserInfo>>)
      modifies transport
      ensures var sockets := ConnectionsOf(manager.activeConnections, activityId);
              transport.log == old(transport.log)
                + Deliveries(sockets, UserLeft(user.id, user.firstName), old(transport.gone))
                + (if Reachable(sockets, old(transport.gone)) && roster.Some?
                   then Deliveries(sockets, UsersInActivity(roster.value), old(transport.gone)) else [])
      ensures transport.gone == old(transport.gone)
    {
      if activityId in manager.activeConnections {
        var sentLeft := manager.Broadcast(UserLeft(user.id, user.firstName), activityId, transport);
        if sentLeft {
          SendUsersInActivity(activityId, roster);
        }
        if !(sentLeft && roster.Some?) {
          assert transport.log == transport.log + [];
        }
      }
    }
  
    // -------------------------------------------------------------------------
    // The timer task and the roulette

    /** start_variant_submission_timer up to its sleep: `timer_started` to everyone in the
        activity. A send that raises ends the task and leaves its entry in `activity_timers`. */
    method TimerStart(activityId: int) returns (alive: bool)
      requires Valid() && activityId in timers && timers[activityId] == Starting
      modifies this, transport
      ensures Valid()
      ensures var sockets := ConnectionsOf(manager.activeConnections, activityId);
              && (alive <==> Reachable(sockets, old(transport.gone)))
              && transport.log == old(transport.log) + Deliveries(sockets, TimerStarted(TimerDuration), old(transport.gone))
      ensures transport.gone == old(transport.gone)
      ensures timers == old(timers)[activityId := if alive then Sleeping else Dead]
      ensures handlers == old(handlers)
    {
      alive := manager.Broadcast(TimerStarted(TimerDuration), activityId, transport);
      timers := timers[activityId := if alive then Sleeping else Dead];
    }

    /** The rest of the task, once its 60 seconds are over: `timer_finished`, the roulette, and
        the task's own entry deleted. A send that raises ends the task with its entry left. */
    method TimerExpire(activityId: int, perm: seq<nat>) returns (completed: bool)
      requires Valid() && activityId in timers && timers[activityId] == Sleeping
      requires IsPermutation(perm, |activities.GetActivityVariants(activityId)|)
      modifies this, transport, activities
      ensures Valid()
      ensures var sockets := ConnectionsOf(manager.activeConnections, activityId);
              var shuffled := Shuffle(old(activities.GetActivityVariants(activityId)), perm);
              && (completed <==> Reachable(sockets, old(transport.gone)))
              && (completed ==>
                    && timers == old(timers) - {activityId}
                    && transport.log == old(transport.log)
                         + Broadcasts(sockets, [TimerFinished] + RouletteEvents(shuffled), old(transport.gone)))
              && (!completed ==>
                    && timers == old(timers)[activityId := Dead]
                    && transport.log == old(transport.log) + Deliveries(sockets, TimerFinished, old(transport.gone))
                    && activities.activities == old(activities.activities))
              && (completed ==> Finalized(activityId, shuffled, old(activities.activities), activities.activities))
      ensures transport.gone == old(transport.gone)
      ensures handlers == old(handlers)
      ensures activities.variants == old(activities.variants) && activities.members == old(activities.members)
    {
      var sent := manager.Broadcast(TimerFinished, activityId, transport);
      if !sent {
        timers := timers[activityId := Dead];
        return false;
      }
      var sockets := ConnectionsOf(manager.activeConnections, activityId);
      var shuffled := Shuffle(activities.GetActivityVariants(activityId), perm);
      var finished := StartRoulette(manager, transport, activities, activityId, perm);
      // The sends of the roulette reach the same sockets as `timer_finished` did.
      assert finished;
      assert Broadcasts(sockets, [TimerFinished] + RouletteEvents(shuffled), old(transport.gone))
          == Deliveries(sockets, TimerFinished, old(transport.gone)) + Broadcasts(sockets, RouletteEvents(shuffled), old(transport.gone)) by {
        assert ([TimerFinished] + RouletteEvents(shuffled))[1..] == RouletteEvents(shuffled);
      }
      AppendAssoc(old(transport.log), Deliveries(sockets, TimerFinished, old(transport.gone)),
                  Broadcasts(sockets, RouletteEvents(shuffled), old(transport.gone)));
      if activityId in timers {
        timers := timers - {activityId};
      }
      completed := true;
    }
  }

  /** finalize_activity's effect on the activities: with a winner and an existing row the row
      is FINISHED with that winner; otherwise nothing changes. */
  ghost predicate Finalized(activityId: int, shuffled: seq<AS.Variant>, before: map<int, AS.Activity>,
                            after: map<int, AS.Activity>)
  {
    if shuffled != [] && activityId in before then
      after == before[activityId := before[activityId].(winnerUserId := Some(shuffled[0].userId), status := Finished)]
    else after == before
  }

  /** start_roulette: no variants is announced as a cancellation, and the activity stays as
      it is; otherwise the shuffled list is announced, its last element is eliminated until
      one is left, and that one is stored as the winner (a failure to store it is logged)
      and declared. A send that raises ends the roulette. */
  method StartRoulette(manager: ConnectionManager, transport: Transport, service: AS.ActivityService,
                       activityId: int, perm: seq<nat>) returns (ok: bool)
    requires service.Valid()
    requires IsPermutation(perm, |service.GetActivityVariants(activityId)|)
    modifies transport, service
    ensures service.Valid()
    ensures var sockets := ConnectionsOf(manager.activeConnections, activityId);
            var events := RouletteEvents(Shuffle(old(service.GetActivityVariants(activityId)), perm));
            && (ok <==> Reachable(sockets, old(transport.gone)))
            && (ok ==> transport.log == old(transport.log) + Broadcasts(sockets, events, old(transport.gone)))
            && (!ok ==> transport.log == old(transport.log) + Deliveries(sockets, events[0], old(transport.gone)))
    ensures ok ==> Finalized(activityId, Shuffle(old(service.GetActivityVariants(activityId)), perm),
                             old(service.activities), service.activities)
    ensures !ok ==> service.activities == old(service.activities)
    ensures transport.gone == old(transport.gone)
    ensures service.variants == old(service.variants) && service.members == old(service.members)
  {
    var sockets := ConnectionsOf(manager.activeConnections, activityId);
    var variants := service.GetActivityVariants(activityId);
    var shuffled := Shuffle(variants, perm);
    if variants == [] {
      ok := manager.Broadcast(RouletteCancelled(NoVariantsReason), activityId, transport);
      assert transport.log == old(transport.log) + Broadcasts(sockets, [RouletteCancelled(NoVariantsReason)], transport.gone);
      return;
    }
    ok := manager.Broadcast(RouletteStarted(|shuffled|), activityId, transport);
    if !ok {
      return;
    }
    var eliminated, winner := Eliminate(manager, transport, activityId, shuffled);
    // Every socket took `roulette_started`, so every socket takes the eliminations too.
    assert eliminated;
    var _ := service.FinalizeActivity(activityId, winner.userId);
    ok := manager.Broadcast(WinnerDeclared(winner.userId, winner.text), activityId, transport);
    assert ok;
    RouletteBroadcasts(sockets, shuffled, transport.gone);
    AppendAssoc(old(transport.log), Deliveries(sockets, RouletteStarted(|shuffled|), transport.gone),
                Broadcasts(sockets, Popped(shuffled, 1), transport.gone));
    AppendAssoc(old(transport.log), Deliveries(sockets, RouletteStarted(|shuffled|), transport.gone)
                  + Broadcasts(sockets, Popped(shuffled, 1), transport.gone),
                Deliveries(sockets, WinnerDeclared(shuffled[0].userId, shuffled[0].text), transport.gone));
  }

  /** The broadcasts of a roulette over a nonempty list, split as start_roulette sends them. */
  lemma RouletteBroadcasts(sockets: seq<Socket>, shuffled: seq<AS.Variant>, gone: set<Socket>)
    requires shuffled != []
    ensures Broadcasts(sockets, RouletteEvents(shuffled), gone)
         == Deliveries(sockets, RouletteStarted(|shuffled|), gone)
            + Broadcasts(sockets, Popped(shuffled, 1), gone)
            + Deliveries(sockets, WinnerDeclared(shuffled[0].userId, shuffled[0].text), gone)
  {
    var events := [RouletteStarted(|shuffled|)] + Popped(shuffled, 1);
    BroadcastsAppend(sockets, events, WinnerDeclared(shuffled[0].userId, shuffled[0].text), gone);
    assert events[1..] == Popped(shuffled, 1);
  }

  /** `while len(variants) > 1: variants.pop()`, each elimination broadcast; a send that
      raises ends the loop. */
  method Eliminate(manager: ConnectionManager, transport: Transport, activityId: int, shuffled: seq<AS.Variant>)
    returns (ok: bool, winner: AS.Variant)
    requires shuffled != []
    modifies transport
    ensures winner == shuffled[0]
    ensures !ok ==> !Reachable(ConnectionsOf(manager.activeConnections, activityId), old(transport.gone))
    ensures ok ==>
              transport.log == old(transport.log)
                + Broadcasts(ConnectionsOf(manager.activeConnections, activityId), Popped(shuffled, 1), old(transport.gone))
    ensures transport.gone == old(transport.gone)
  {
    var sockets := ConnectionsOf(manager.activeConnections, activityId);
    ghost var gone := transport.gone;
    ghost var log0 := transport.log;
    ghost var events: seq<Event> := [];
    var remaining := shuffled;
    while |remaining| > 1
      invariant 1 <= |remaining| <= |shuffled|
      invariant remaining == shuffled[..|remaining|]
      invariant events == Popped(shuffled, |remaining|)
      invariant transport.gone == gone
      invariant transport.log == log0 + Broadcasts(sockets, events, gone)
      decreases |remaining|
    {
      var eliminated := remaining[|remaining| - 1];
      var e := VariantEliminated(eliminated.userId, eliminated.text);
      PoppedStep(shuffled, |remaining|);
      remaining := remaining[..|remaining| - 1];
      var sent := manager.Broadcast(e, activityId, transport);
      if !sent {
        return false, remaining[0];
      }
      BroadcastsAppend(sockets, events, e, gone);
      AppendAssoc(log0, Broadcasts(sockets, events, gone), Deliveries(sockets, e, gone));
      events := events + [e];
    }
    ok, winner := true, remaining[0];
  }
}
