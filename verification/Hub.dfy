/**
  The flashblocks `Hub`: each client has a bounded queue, a broadcast goes to every registered client,
  and a client that is full or gone is dropped.
*/
module Hub {
  const QUEUE_LIMIT := 256

  type Message = seq<int>

  /** One client's queue, what it has taken from it, and whether its receiver still exists. */
  datatype Channel = Channel(queue: seq<Message>, received: seq<Message>, open: bool)

  /** `try_send` fails when the queue is full or the receiver is gone. */
  predicate CanSend(ch: Channel) {
    ch.open && |ch.queue| < QUEUE_LIMIT
  }

  function Send(ch: Channel, m: Message): Channel {
    if CanSend(ch) then ch.(queue := ch.queue + [m]) else ch
  }

  /**
    `waiting` holds ids taken by a `register` that has not inserted its client yet. `log` is every
    message broadcast so far, and `joined` the length it had when a client was inserted.
  */
  datatype State = State(
    nextId: nat,
    waiting: set<nat>,
    clients: set<nat>,
    channels: map<nat, Channel>,
    log: seq<Message>,
    joined: map<nat, nat>)

  const INITIAL := State(1, {}, {}, map[], [], map[])

  datatype Event =
    | Allocate
    | Insert(id: nat)
    | Unregister(id: nat)
    | Broadcast(message: Message)
    | Receive(id: nat)
    | Close(id: nat)

  predicate Enabled(s: State, e: Event) {
    match e
    case Allocate => true
    case Insert(id) => id in s.waiting
    case Unregister(_) => true
    case Broadcast(_) => s.clients <= s.channels.Keys
    case Receive(id) => id in s.channels && s.channels[id].open && s.channels[id].queue != []
    case Close(id) => id in s.channels
  }

  /** A closed receiver drops whatever it had not taken. */
  function Do(s: State, e: Event): State
    requires Enabled(s, e)
  {
    match e
    case Allocate => s.(nextId := s.nextId + 1, waiting := s.waiting + {s.nextId})
    case Insert(id) =>
      s.(waiting := s.waiting - {id}, clients := s.clients + {id},
         channels := s.channels[id := Channel([], [], true)], joined := s.joined[id := |s.log|])
    case Unregister(id) => s.(clients := s.clients - {id})
    case Broadcast(m) =>
      var kept := set c | c in s.clients && CanSend(s.channels[c]);
      var sent := map c | c in s.channels :: if c in s.clients then Send(s.channels[c], m) else s.channels[c];
      s.(clients := kept, channels := sent, log := s.log + [m])
    case Receive(id) =>
      var ch := s.channels[id];
      s.(channels := s.channels[id := ch.(queue := ch.queue[1..], received := ch.received + [ch.queue[0]])])
    case Close(id) => s.(channels := s.channels[id := s.channels[id].(queue := [], open := false)])
  }

  // ---------- the hub object ----------

  class Hub {
    var nextId: nat
    var clients: set<nat>
    var channels: map<nat, Channel>
    ghost var waiting: set<nat>
    ghost var log: seq<Message>
    ghost var joined: map<nat, nat>

    ghost function View(): State
      reads this
    {
      State(nextId, waiting, clients, channels, log, joined)
    }

    constructor ()
      ensures View() == INITIAL
    {
      nextId, clients, channels := 1, {}, map[];
      waiting, log, joined := {}, [], map[];
    }

    /** The first half of `register`: take an id before asking for the lock. */
    method TakeId() returns (id: nat)
      modifies this
      ensures id == old(nextId) && View() == Do(old(View()), Allocate)
    {
      id := nextId;
      nextId := nextId + 1;
      waiting := waiting + {id};
    }

    /** The second half: insert the sender under the lock. */
    method InsertClient(id: nat)
      requires id in waiting
      modifies this
      ensures View() == Do(old(View()), Insert(id))
    {
      channels := channels[id := Channel([], [], true)];
      clients := clients + {id};
      waiting := waiting - {id};
      joined := joined[id := |log|];
    }

    method UnregisterClient(id: nat)
      modifies this
      ensures View() == Do(old(View()), Unregister(id))
    {
      clients := clients - {id};
    }

    /** Try every client in turn, note the ones that failed, then remove them. */
    method BroadcastMessage(m: Message)
      requires clients <= channels.Keys
      modifies this
      ensures View() == Do(old(View()), Broadcast(m))
    {
      var dropped: set<nat> := {};
      var rest := clients;
      while rest != {}
        invariant rest <= clients == old(clients) && channels.Keys == old(channels).Keys
        invariant nextId == old(nextId) && waiting == old(waiting) && log == old(log) && joined == old(joined)
        invariant forall c :: c in channels ==>
                    channels[c] == if c in clients && c !in rest then Send(old(channels)[c], m) else old(channels)[c]
        invariant forall c :: c in dropped <==> c in clients && c !in rest && !CanSend(old(channels)[c])
        decreases rest
      {
        var c :| c in rest;
        if CanSend(channels[c]) {
          channels := channels[c := channels[c].(queue := channels[c].queue + [m])];
        } else {
          dropped := dropped + {c};
        }
        rest := rest - {c};
      }
      clients := clients - dropped;
      log := log + [m];
      assert View().clients == Do(old(View()), Broadcast(m)).clients;
      assert View().channels == Do(old(View()), Broadcast(m)).channels;
    }
  }

  // ---------- gap-free delivery ----------

  /** What a client has had or will have: taken from the queue, then still in it. */
  function Delivered(ch: Channel): seq<Message> {
    ch.received + ch.queue
  }

  /** A contiguous piece of the broadcasts, beginning where the client joined. */
  ghost predicate GapFree(s: State, id: nat) {
    id in s.channels && id in s.joined &&
    var start, n := s.joined[id], |Delivered(s.channels[id])|;
    && start + n <= |s.log|
    && Delivered(s.channels[id]) == s.log[start..start + n]
    && (id in s.clients && s.channels[id].open ==> start + n == |s.log|)
    && |s.channels[id].queue| <= QUEUE_LIMIT
  }

  /** Ids are used once: every one in use is below the next, and waits or has a channel, not both. */
  ghost predicate Shape(s: State) {
    && s.clients <= s.channels.Keys && s.joined.Keys == s.channels.Keys
    && (forall id :: id in s.waiting ==> id < s.nextId)
    && (forall id :: id in s.channels ==> id < s.nextId)
    && s.waiting !! s.channels.Keys
  }

  lemma ShapeStep(s: State, e: Event)
    requires Shape(s) && Enabled(s, e)
    ensures Shape(Do(s, e))
  {
  }

  ghost predicate Inv(s: State) {
    && Shape(s)
    && (forall id :: id in s.channels ==> GapFree(s, id))
  }

  lemma BroadcastKeepsGapFree(s: State, m: Message, id: nat)
    requires Inv(s) && id in s.channels
    ensures GapFree(Do(s, Broadcast(m)), id)
  {
    assert GapFree(s, id);
    var s' := Do(s, Broadcast(m));
    var start, n := s.joined[id], |Delivered(s.channels[id])|;
    assert s'.log[start..start + n] == s.log[start..start + n];
    if id in s.clients && CanSend(s.channels[id]) {
      assert Delivered(s'.channels[id]) == Delivered(s.channels[id]) + [m];
      assert s'.log[start..start + n + 1] == s.log[start..start + n] + [m];
    }
  }

  lemma ReceiveKeepsGapFree(s: State, id: nat)
    requires Inv(s) && Enabled(s, Receive(id))
    ensures GapFree(Do(s, Receive(id)), id)
    ensures Delivered(Do(s, Receive(id)).channels[id]) == Delivered(s.channels[id])
  {
  }

  lemma CloseKeepsGapFree(s: State, id: nat)
    requires Inv(s) && Enabled(s, Close(id))
    ensures GapFree(Do(s, Close(id)), id)
  {
    assert GapFree(s, id);
    var ch := s.channels[id];
    assert ch.received == Delivered(ch)[..|ch.received|];
    SliceOfSlice(s.log, s.joined[id], |Delivered(ch)|, |ch.received|);
    assert Delivered(ch.(queue := [], open := false)) == ch.received;
  }

  lemma SliceOfSlice(log: seq<Message>, start: nat, n: nat, k: nat)
    requires start + n <= |log| && k <= n
    ensures log[start..start + n][..k] == log[start..start + k]
  {
  }

  lemma InsertKeepsGapFree(s: State, r: nat, id: nat)
    requires Inv(s) && Enabled(s, Insert(r)) && id in Do(s, Insert(r)).channels
    ensures GapFree(Do(s, Insert(r)), id)
  {
    if r == id {
      assert Do(s, Insert(r)).log[|s.log|..|s.log|] == [];
    } else {
      assert GapFree(s, id);
    }
  }

  lemma KeepsGapFree(s: State, e: Event, id: nat)
    requires Inv(s) && Enabled(s, e) && id in Do(s, e).channels
    ensures GapFree(Do(s, e), id)
  {
    if e.Insert? {
      InsertKeepsGapFree(s, e.id, id);
    } else {
      assert GapFree(s, id);
      match e
      case Broadcast(m) => BroadcastKeepsGapFree(s, m, id);
      case Receive(r) => if r == id { ReceiveKeepsGapFree(s, id); }
      case Close(r) => if r == id { CloseKeepsGapFree(s, id); }
      case _ =>
    }
  }

  lemma InvStep(s: State, e: Event)
    requires Inv(s) && Enabled(s, e)
    ensures Inv(Do(s, e))
  {
    ShapeStep(s, e);
    var s' := Do(s, e);
    forall id | id in s'.channels ensures GapFree(s', id) {
      KeepsGapFree(s, e, id);
    }
  }

  /** Plays events in turn; one that is not possible is passed over. */
  function Play(s: State, events: seq<Event>): State {
    if events == [] then s
    else
      var before := Play(s, events[..|events| - 1]);
      var e := events[|events| - 1];
      if Enabled(before, e) then Do(before, e) else before
  }

  lemma {:induction false} PlayInv(s: State, events: seq<Event>)
    requires Inv(s)
    ensures Inv(Play(s, events))
    decreases |events|
  {
    if events != [] {
      var before := Play(s, events[..|events| - 1]);
      PlayInv(s, events[..|events| - 1]);
      if Enabled(before, events[|events| - 1]) { InvStep(before, events[|events| - 1]); }
    }
  }

  /**
    In every run, each client's delivered and queued messages are one contiguous piece of the broadcasts
    from its registration on, complete while it is registered, in a queue of at most 256.
  */
  lemma FanOutIsGapFree(events: seq<Event>, id: nat)
    requires id in Play(INITIAL, events).channels
    ensures GapFree(Play(INITIAL, events), id)
  {
    PlayInv(INITIAL, events);
  }

  // ---------- who stays registered ----------

  /** A registration gets an id nobody has or had, an open channel with nothing in it, and all later messages. */
  lemma JoinsFresh(s: State, id: nat)
    requires Inv(s) && Enabled(s, Insert(id))
    ensures id !in s.channels && id !in s.clients
    ensures var t := Do(s, Insert(id));
            && id in t.clients && id in t.channels && t.channels[id] == Channel([], [], true)
            && id in t.joined && t.joined[id] == |s.log| && t.log == s.log
  {
  }

  /** A client is dropped exactly by unregistering, or by a broadcast that finds it gone or with 256 messages queued. */
  lemma LeavesIff(s: State, e: Event, id: nat)
    requires Inv(s) && Enabled(s, e) && id in s.clients
    ensures id !in Do(s, e).clients <==>
              || e == Unregister(id)
              || (e.Broadcast? && (!s.channels[id].open || |s.channels[id].queue| == 256))
  {
    assert GapFree(s, id);
  }

  /** The client neither leaves nor closes, and every broadcast finds room in its queue. */
  ghost predicate KeepsUp(s: State, events: seq<Event>, id: nat) {
    forall k :: 0 <= k < |events| ==>
      && events[k] != Unregister(id) && events[k] != Close(id)
      && (events[k].Broadcast? ==>
            var t := Play(s, events[..k]);
            id in t.channels && |t.channels[id].queue| < 256)
  }

  lemma StaysStep(s: State, e: Event, id: nat)
    requires Inv(s) && Enabled(s, e) && id in s.clients && s.channels[id].open
    requires e != Unregister(id) && e != Close(id) && (e.Broadcast? ==> |s.channels[id].queue| < 256)
    ensures id in Do(s, e).clients && id in Do(s, e).channels && Do(s, e).channels[id].open
  {
    LeavesIff(s, e, id);
  }

  lemma {:induction false} KeepingUpStays(s: State, events: seq<Event>, id: nat)
    requires Inv(s) && id in s.clients && s.channels[id].open && KeepsUp(s, events, id)
    ensures var t := Play(s, events);
            Inv(t) && id in t.clients && id in t.channels && t.channels[id].open
    decreases |events|
  {
    PlayInv(s, events);
    if events != [] {
      var n := |events| - 1;
      var front := events[..n];
      assert forall k :: 0 <= k < n ==> front[..k] == events[..k];
      KeepingUpStays(s, front, id);
      var t := Play(s, front);
      if Enabled(t, events[n]) { StaysStep(t, events[n], id); }
    }
  }

  /** A client that keeps up stays registered and gets every message since it joined, in order. */
  lemma KeepingUpGetsAll(s: State, id: nat, events: seq<Event>)
    requires Inv(s) && Enabled(s, Insert(id)) && KeepsUp(Do(s, Insert(id)), events, id)
    ensures var t := Play(Do(s, Insert(id)), events);
            && id in t.clients && id in t.channels && t.channels[id].open
            && |s.log| <= |t.log| && Delivered(t.channels[id]) == t.log[|s.log|..]
  {
    JoinsFresh(s, id);
    InvStep(s, Insert(id));
    var joined := Do(s, Insert(id));
    KeepingUpStays(joined, events, id);
    JoinedStays(joined, events, id);
    var t := Play(joined, events);
    assert GapFree(t, id);
    assert t.log[|s.log|..] == t.log[|s.log|..|t.log|];
  }

  /** Where a client joined is settled once. */
  lemma {:induction false} JoinedStays(s: State, events: seq<Event>, id: nat)
    requires Inv(s) && id in s.channels
    ensures var t := Play(s, events);
            id in t.channels && id in t.joined && t.joined[id] == s.joined[id]
    decreases |events|
  {
    if events != [] {
      JoinedStays(s, events[..|events| - 1], id);
      PlayInv(s, events[..|events| - 1]);
    }
  }

  /** A client whose receiver is gone has lost what it had not taken and gets nothing ever after. */
  lemma {:induction false} ClosedGetsNothing(s: State, id: nat, events: seq<Event>)
    requires Inv(s) && id in s.channels
    ensures var t := Play(Do(s, Close(id)), events);
            id in t.channels && t.channels[id] == Channel([], s.channels[id].received, false)
    decreases |events|
  {
    InvStep(s, Close(id));
    if events != [] {
      ClosedGetsNothing(s, id, events[..|events| - 1]);
      PlayInv(Do(s, Close(id)), events[..|events| - 1]);
    }
  }

  // ---------- clients do not affect each other ----------

  /** Everything the hub holds for one client. */
  datatype Client = Client(registered: bool, channel: Channel)

  function ClientOf(s: State, id: nat): Client
    requires id in s.channels
  {
    Client(id in s.clients, s.channels[id])
  }

  /** Broadcasts concern everybody, the other events one client. */
  predicate Concerns(e: Event, id: nat) {
    match e
    case Allocate => false
    case Broadcast(_) => true
    case _ => e.id == id
  }

  function OnlyConcerning(events: seq<Event>, id: nat): seq<Event> {
    if events == [] then []
    else
      var front := OnlyConcerning(events[..|events| - 1], id);
      if Concerns(events[|events| - 1], id) then front + [events[|events| - 1]] else front
  }

  lemma OtherEventsDoNotMatter(s: State, e: Event, id: nat)
    requires Inv(s) && id in s.channels && Enabled(s, e) && !Concerns(e, id)
    ensures ClientOf(Do(s, e), id) == ClientOf(s, id)
  {
  }

  lemma OwnEventsAgree(s: State, t: State, e: Event, id: nat)
    requires Inv(s) && Inv(t) && id in s.channels && id in t.channels && Concerns(e, id)
    requires ClientOf(s, id) == ClientOf(t, id)
    ensures Enabled(s, e) == Enabled(t, e)
    ensures Enabled(s, e) ==> ClientOf(Do(s, e), id) == ClientOf(Do(t, e), id)
  {
  }

  /**
    What a client gets does not depend on the other clients: strike out every event of theirs, however
    full or closed they are, and it receives and queues exactly the same.
  */
  lemma {:induction false} ClientsDoNotInterfere(s: State, events: seq<Event>, id: nat)
    requires Inv(s) && id in s.channels
    ensures id in Play(s, events).channels && id in Play(s, OnlyConcerning(events, id)).channels
    ensures ClientOf(Play(s, events), id) == ClientOf(Play(s, OnlyConcerning(events, id)), id)
    decreases |events|
  {
    if events != [] {
      var front, e := events[..|events| - 1], events[|events| - 1];
      ClientsDoNotInterfere(s, front, id);
      var a, b := Play(s, front), Play(s, OnlyConcerning(front, id));
      PlayInv(s, front);
      PlayInv(s, OnlyConcerning(front, id));
      if Concerns(e, id) {
        OwnEventsAgree(a, b, e, id);
        var filtered := OnlyConcerning(events, id);
        assert filtered[..|filtered| - 1] == OnlyConcerning(front, id);
      } else if Enabled(a, e) {
        OtherEventsDoNotMatter(a, e, id);
      }
    }
  }
}
