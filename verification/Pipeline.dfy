// From a block notification to the browser: the capacity-one notification channel, the main loop, the broker's
// capacity-one client channels. Sends to a full channel are dropped at both stages; no wake-up is lost.
module Pipeline {

  // A connected client. `covers` says how fresh its last event was: when it was sent, a generation that started
  // after that many notifications had been completed.
  datatype Client = Client(pending: bool, offered: nat, delivered: nat, joinedAt: nat, covers: nat)

  function Joining(arrivals: nat): Client {
    Client(false, 0, 0, arrivals, 0)
  }

  // A non-blocking send: a full channel keeps its one event.
  function Offered(c: Client): Client {
    c.(pending := true, offered := c.offered + 1)
  }

  function Delivered(c: Client, published: nat): Client
    requires c.pending
  {
    c.(pending := false, delivered := c.delivered + 1, covers := published)
  }

  /******* The broker *******/

  class Broker {
    var clients: map<nat, Client>

    constructor ()
      ensures clients == map[]
    {
      clients := map[];
    }

    method Subscribe(ch: nat, arrivals: nat)
      requires ch !in clients
      modifies this
      ensures clients == old(clients)[ch := Joining(arrivals)]
    {
      clients := clients[ch := Joining(arrivals)];
    }

    method Unsubscribe(ch: nat)
      modifies this
      ensures clients == old(clients) - {ch}
    {
      clients := clients - {ch};
    }

    // Every client is offered the event exactly once, in whatever order the map is walked; a full channel stays full.
    method Broadcast()
      modifies this
      ensures clients == map ch | ch in old(clients) :: Offered(old(clients)[ch])
    {
      var todo := clients.Keys;
      while todo != {}
        invariant clients.Keys == old(clients).Keys && todo <= clients.Keys
        invariant forall ch :: ch in clients ==>
                    clients[ch] == if ch in todo then old(clients)[ch] else Offered(old(clients)[ch])
        decreases todo
      {
        var ch :| ch in todo;
        if !clients[ch].pending {
          clients := clients[ch := clients[ch].(pending := true, offered := clients[ch].offered + 1)];
        } else {
          clients := clients[ch := clients[ch].(offered := clients[ch].offered + 1)];
        }
        todo := todo - {ch};
      }
    }
  }

  /******* The whole pipeline, step by step *******/

  // Booting: the first page is being generated. Woken: a notification was taken, the pause before generating is
  // running. Generating: a generation that started after `stamp` notifications. Broadcasting: the broker is locked.
  datatype Pc = Booting | Idle | Woken | Generating(stamp: nat) | Broadcasting(todo: set<nat>)

  // `published` is the stamp of the latest generation whose broadcast has begun.
  datatype State = State(arrivals: nat, blockCh: bool, pc: Pc, published: nat, clients: map<nat, Client>)

  datatype Step =
    | Arrive            // a ZMQ notification
    | Booted            // the first page is done; the main loop starts
    | Take              // the main loop receives from blockCh
    | Pause             // the pause is over, generation starts
    | Force             // manual regeneration, or the 30-second poll finds the database ahead
    | Generated         // generation is over, successful or not; the broadcast begins
    | OfferTo(ch: nat)  // one turn of the broadcast loop
    | Released          // the broadcast is over
    | Subscribe(ch: nat)
    | Unsubscribe(ch: nat)
    | Read(ch: nat)     // a client's handler receives and writes the event

  const INITIAL := State(0, false, Booting, 0, map[])

  predicate Enabled(s: State, a: Step) {
    match a
    case Arrive => true
    case Booted => s.pc.Booting?
    case Take => s.pc.Idle? && s.blockCh
    case Pause => s.pc.Woken?
    case Force => s.pc.Idle?
    case Generated => s.pc.Generating?
    case OfferTo(ch) => s.pc.Broadcasting? && ch in s.pc.todo && ch in s.clients
    case Released => s.pc == Broadcasting({})
    case Subscribe(ch) => !s.pc.Broadcasting? && ch !in s.clients
    case Unsubscribe(ch) => !s.pc.Broadcasting? && ch in s.clients
    case Read(ch) => ch in s.clients && s.clients[ch].pending
  }

  function Next(s: State, a: Step): State
    requires Enabled(s, a)
  {
    match a
    case Arrive => s.(arrivals := s.arrivals + 1, blockCh := true)
    case Booted => s.(pc := Idle)
    case Take => s.(pc := Woken, blockCh := false)
    case Pause => s.(pc := Generating(s.arrivals))
    case Force => s.(pc := Generating(s.arrivals))
    case Generated => s.(pc := Broadcasting(s.clients.Keys), published := s.pc.stamp)
    case OfferTo(ch) => s.(pc := Broadcasting(s.pc.todo - {ch}), clients := s.clients[ch := Offered(s.clients[ch])])
    case Released => s.(pc := Idle)
    case Subscribe(ch) => s.(clients := s.clients[ch := Joining(s.arrivals)])
    case Unsubscribe(ch) => s.(clients := s.clients - {ch})
    case Read(ch) => s.(clients := s.clients[ch := Delivered(s.clients[ch], s.published)])
  }

  ghost predicate Behaviour(states: seq<State>, steps: seq<Step>) {
    && |states| == |steps| + 1 && states[0] == INITIAL
    && forall i :: 0 <= i < |steps| ==> Enabled(states[i], steps[i]) && states[i + 1] == Next(states[i], steps[i])
  }

  /******* What every run keeps *******/

  // With blockCh empty, the generation in hand, or the last one published, started after every notification.
  ghost predicate MainCovers(s: State) {
    && s.published <= s.arrivals
    && (s.pc.Generating? ==> s.pc.stamp <= s.arrivals)
    && (!s.blockCh ==>
          match s.pc
          case Booting => s.arrivals == 0
          case Woken => true
          case Generating(stamp) => stamp == s.arrivals
          case _ => s.published == s.arrivals)
  }

  // A client with nothing pending and no offer to come has been sent the latest publication, or joined after it.
  ghost predicate ClientCovered(s: State, ch: nat)
    requires ch in s.clients
  {
    var c := s.clients[ch];
    && c.joinedAt <= s.arrivals
    && c.delivered + (if c.pending then 1 else 0) <= c.offered
    && (c.offered == 0 || c.pending || c.delivered > 0)
    && ((s.pc.Broadcasting? && ch in s.pc.todo) || c.pending ||
        if c.offered == 0 then s.published <= c.joinedAt else c.covers == s.published)
  }

  ghost predicate Inv(s: State) {
    && MainCovers(s)
    && (s.pc.Broadcasting? ==> s.pc.todo <= s.clients.Keys)
    && forall ch :: ch in s.clients ==> ClientCovered(s, ch)
  }

  lemma StepKeeps(s: State, a: Step)
    requires Inv(s) && Enabled(s, a)
    ensures Inv(Next(s, a))
  {
  }

  lemma {:induction false} AlwaysInv(states: seq<State>, steps: seq<Step>, i: nat)
    requires Behaviour(states, steps) && i < |states|
    ensures Inv(states[i])
  {
    if i == 0 {
    } else {
      AlwaysInv(states, steps, i - 1);
      StepKeeps(states[i - 1], steps[i - 1]);
    }
  }

  // How many broadcasts have begun, among the first i steps, since client ch last subscribed.
  function BroadcastsSince(steps: seq<Step>, i: nat, ch: nat): nat
    requires i <= |steps|
  {
    if i == 0 || steps[i - 1] == Subscribe(ch) then 0
    else BroadcastsSince(steps, i - 1, ch) + if steps[i - 1].Generated? then 1 else 0
  }

  // Every broadcast offers the event to the client exactly once; the one under way may still be about to.
  lemma {:induction false} OffersCounted(states: seq<State>, steps: seq<Step>, i: nat, ch: nat)
    requires Behaviour(states, steps) && i < |states| && ch in states[i].clients
    ensures var s := states[i];
            s.clients[ch].offered + (if s.pc.Broadcasting? && ch in s.pc.todo then 1 else 0) ==
              BroadcastsSince(steps, i, ch)
  {
    hide MainCovers, ClientCovered;
    if i == 0 {
    } else {
      AlwaysInv(states, steps, i - 1);
      if ch in states[i - 1].clients {
        OffersCounted(states, steps, i - 1, ch);
      }
    }
  }

  // How many notifications arrived among the first i steps.
  function Arrivals(steps: seq<Step>, i: nat): nat
    requires i <= |steps|
  {
    if i == 0 then 0 else Arrivals(steps, i - 1) + if steps[i - 1].Arrive? then 1 else 0
  }

  // How many of them had arrived when the client last subscribed.
  function ArrivalsBefore(steps: seq<Step>, i: nat, ch: nat): nat
    requires i <= |steps|
  {
    if i == 0 then 0
    else if steps[i - 1] == Subscribe(ch) then Arrivals(steps, i - 1)
    else ArrivalsBefore(steps, i - 1, ch)
  }

  // How many events the client has been sent since it last subscribed.
  function ReadsSince(steps: seq<Step>, i: nat, ch: nat): nat
    requires i <= |steps|
  {
    if i == 0 || steps[i - 1] == Subscribe(ch) then 0
    else ReadsSince(steps, i - 1, ch) + if steps[i - 1] == Read(ch) then 1 else 0
  }

  // How many notifications had arrived when the last generation began.
  function BegunAfter(steps: seq<Step>, i: nat): nat
    requires i <= |steps|
  {
    if i == 0 then 0
    else if steps[i - 1].Pause? || steps[i - 1].Force? then Arrivals(steps, i - 1)
    else BegunAfter(steps, i - 1)
  }

  // The same for the last generation that is over.
  function PublishedAfter(steps: seq<Step>, i: nat): nat
    requires i <= |steps|
  {
    if i == 0 then 0
    else if steps[i - 1].Generated? then BegunAfter(steps, i - 1)
    else PublishedAfter(steps, i - 1)
  }

  // The same for the generation that was the last one over when the client was last sent an event.
  function SentAfter(steps: seq<Step>, i: nat, ch: nat): nat
    requires i <= |steps|
  {
    if i == 0 || steps[i - 1] == Subscribe(ch) then 0
    else if steps[i - 1] == Read(ch) then PublishedAfter(steps, i - 1)
    else SentAfter(steps, i - 1, ch)
  }

  // The counters in the state are what the run did.
  lemma {:induction false} CountersTrue(states: seq<State>, steps: seq<Step>, i: nat, ch: nat)
    requires Behaviour(states, steps) && i < |states|
    ensures var s := states[i];
            && s.arrivals == Arrivals(steps, i) && s.published == PublishedAfter(steps, i)
            && (s.pc.Generating? ==> s.pc.stamp == BegunAfter(steps, i))
            && (ch in s.clients ==>
                  && s.clients[ch].joinedAt == ArrivalsBefore(steps, i, ch)
                  && s.clients[ch].delivered == ReadsSince(steps, i, ch)
                  && s.clients[ch].covers == SentAfter(steps, i, ch))
  {
    if i == 0 {
    } else {
      CountersTrue(states, steps, i - 1, ch);
    }
  }

  // In every run: whenever the main loop is idle with blockCh empty, a client whose channel is empty has been sent an
  // event after a generation that began after the very last notification, unless none arrived since it subscribed and
  // nothing was broadcast. And no client is ever sent more events than there were broadcasts since it subscribed.
  lemma NoLostWakeup(states: seq<State>, steps: seq<Step>, i: nat, ch: nat)
    requires Behaviour(states, steps) && i < |states| && ch in states[i].clients
    ensures var s, pending := states[i], states[i].clients[ch].pending;
            && ReadsSince(steps, i, ch) + (if pending then 1 else 0) <= BroadcastsSince(steps, i, ch)
            && (s.pc.Idle? && !s.blockCh && !pending ==>
                  if BroadcastsSince(steps, i, ch) == 0
                  then ArrivalsBefore(steps, i, ch) == Arrivals(steps, i)
                  else ReadsSince(steps, i, ch) > 0 && SentAfter(steps, i, ch) == Arrivals(steps, i))
  {
    hide Behaviour, BroadcastsSince, ReadsSince, SentAfter, Arrivals, ArrivalsBefore, PublishedAfter, BegunAfter;
    AlwaysInv(states, steps, i);
    OffersCounted(states, steps, i, ch);
    CountersTrue(states, steps, i, ch);
    assert ClientCovered(states[i], ch);
  }

  const ARRIVING := [Booted, Subscribe(1), Arrive, Take, Pause, Generated, OfferTo(1), Released, Read(1)]

  // Runs do get events to clients: one notification, one client, from boot to the event written.
  lemma EventArrives() returns (states: seq<State>)
    ensures Behaviour(states, ARRIVING)
    ensures var s := states[9]; s.pc.Idle? && !s.blockCh && 1 in s.clients && !s.clients[1].pending
  {
    hide Arrivals, ReadsSince, SentAfter;
    var s1 := Next(INITIAL, Booted);
    var s2 := Next(s1, Subscribe(1));
    var s3 := Next(s2, Arrive);
    var s4 := Next(s3, Take);
    var s5 := Next(s4, Pause);
    var s6 := Next(s5, Generated);
    assert s6.pc.todo == {1};
    var s7 := Next(s6, OfferTo(1));
    assert s7.pc.todo == {};
    var s8 := Next(s7, Released);
    var s9 := Next(s8, Read(1));
    states := [INITIAL, s1, s2, s3, s4, s5, s6, s7, s8, s9];
  }

  lemma ArrivingCounts()
    ensures ReadsSince(ARRIVING, 9, 1) == 1 && SentAfter(ARRIVING, 9, 1) == 1 == Arrivals(ARRIVING, 9)
  {
    var steps := ARRIVING;
    assert Arrivals(steps, 4) == 1;
    assert BegunAfter(steps, 5) == 1;
    assert PublishedAfter(steps, 8) == 1;
    assert ReadsSince(steps, 8, 1) == 0;
  }

  // The broadcast loop's turns, in the order it walks the clients.
  function Offers(s: State, order: seq<nat>): State {
    if order == [] then s
    else
      var t := Offers(s, order[..|order| - 1]);
      var ch := order[|order| - 1];
      if Enabled(t, OfferTo(ch)) then Next(t, OfferTo(ch)) else t
  }

  ghost function Remaining(clients: map<nat, Client>, order: seq<nat>): set<nat> {
    set ch | ch in clients && ch !in order
  }

  ghost function Walked(clients: map<nat, Client>, order: seq<nat>): map<nat, Client> {
    map ch | ch in clients :: if ch in order then Offered(clients[ch]) else clients[ch]
  }

  // Undisturbed, the loop does to the clients what Broker.Broadcast promises, whatever the order of the walk.
  lemma {:induction false} OffersAreBroadcast(s: State, order: seq<nat>)
    requires s.pc == Broadcasting(s.clients.Keys)
    requires forall i, j :: 0 <= i < j < |order| ==> order[i] != order[j]
    requires forall i :: 0 <= i < |order| ==> order[i] in s.clients
    ensures Offers(s, order) == s.(pc := Broadcasting(Remaining(s.clients, order)), clients := Walked(s.clients, order))
  {
    if order == [] {
      assert Walked(s.clients, []) == s.clients;
      assert Remaining(s.clients, []) == s.clients.Keys;
    } else {
      var rest, last := order[..|order| - 1], order[|order| - 1];
      OffersAreBroadcast(s, rest);
      assert order == rest + [last] && last !in rest;
      assert Remaining(s.clients, rest) - {last} == Remaining(s.clients, order);
      assert Walked(s.clients, rest)[last := Offered(s.clients[last])] == Walked(s.clients, order);
    }
  }

  // Steps the program takes on its own, without a new notification, client or manual request.
  predicate Internal(a: Step) {
    a.Booted? || a.Take? || a.Pause? || a.Generated? || a.OfferTo? || a.Released? || a.Read?
  }

  ghost predicate Settled(s: State) {
    s.pc.Idle? && !s.blockCh && forall ch :: ch in s.clients ==> !s.clients[ch].pending
  }

  // How much work is left; see Drains.
  ghost function Work(s: State): (nat, nat) {
    (match s.pc
     case Booting => if s.blockCh then 9 else 4
     case Idle => if s.blockCh then 8 else 3
     case Woken => if s.blockCh then 12 else 7
     case Generating(_) => if s.blockCh then 11 else 6
     case Broadcasting(_) => if s.blockCh then 10 else 5,
     |Unread(s)| + if s.pc.Broadcasting? then 2 * |s.pc.todo| else 0)
  }

  ghost function Unread(s: State): set<nat> {
    set ch | ch in s.clients && s.clients[ch].pending
  }

  ghost predicate Less(x: (nat, nat), y: (nat, nat)) {
    x.0 < y.0 || (x.0 == y.0 && x.1 < y.1)
  }

  // The pipeline never gets stuck, and left alone it settles: until it has, some internal step can be taken,
  // and every internal step leaves less work.
  lemma Drains(s: State)
    requires Inv(s)
    ensures !Settled(s) ==> exists a :: Internal(a) && Enabled(s, a)
    ensures forall a :: Internal(a) && Enabled(s, a) ==> Less(Work(Next(s, a)), Work(s))
  {
    if !Settled(s) {
      SomeStep(s);
    }
    forall a | Internal(a) && Enabled(s, a) ensures Less(Work(Next(s, a)), Work(s)) {
      WorkFalls(s, a);
    }
  }

  lemma WorkFalls(s: State, a: Step)
    requires Internal(a) && Enabled(s, a)
    ensures Less(Work(Next(s, a)), Work(s))
  {
    if a.OfferTo? {
      OfferFalls(s, a.ch);
    } else if a.Read? {
      ReadFalls(s, a.ch);
    }
  }

  lemma OfferFalls(s: State, ch: nat)
    requires Enabled(s, OfferTo(ch))
    ensures Less(Work(Next(s, OfferTo(ch))), Work(s))
  {
    var now, was := Unread(Next(s, OfferTo(ch))), Unread(s);
    assert now == was + {ch} && |now| <= |was| + 1;
    assert |s.pc.todo - {ch}| == |s.pc.todo| - 1;
  }

  lemma ReadFalls(s: State, ch: nat)
    requires Enabled(s, Read(ch))
    ensures Less(Work(Next(s, Read(ch))), Work(s))
  {
    assert Unread(Next(s, Read(ch))) == Unread(s) - {ch} && ch in Unread(s);
  }

  lemma SomeStep(s: State)
    requires Inv(s) && !Settled(s)
    ensures exists a :: Internal(a) && Enabled(s, a)
  {
    match s.pc
    case Booting => assert Enabled(s, Booted) && Internal(Booted);
    case Woken => assert Enabled(s, Pause) && Internal(Pause);
    case Generating(_) => assert Enabled(s, Generated) && Internal(Generated);
    case Broadcasting(todo) =>
      if todo == {} {
        assert Enabled(s, Released) && Internal(Released);
      } else {
        var ch :| ch in todo;
        assert Enabled(s, OfferTo(ch)) && Internal(OfferTo(ch));
      }
    case Idle =>
      if s.blockCh {
        assert Enabled(s, Take) && Internal(Take);
      } else {
        var ch :| ch in s.clients && s.clients[ch].pending;
        assert Enabled(s, Read(ch)) && Internal(Read(ch));
      }
  }
}
