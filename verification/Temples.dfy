/** The request loop of src/temple.rs: one thread owns the keyspace and the publish/subscribe index, and
    answers each request with one decree. */
module Temples {
  import opened Bytes
  import opened Replies
  import Keyspace
  import KeyspaceLaws
  import Souls
  import opened PubSub
  import Channels

  datatype ClientCommand =
    | Database(request: Keyspace.Request, now: Keyspace.Time)
    | Subscribe(events: seq<Bytes>)
    | Unsubscribe(events: seq<Bytes>)
    | Publish(event: Bytes, message: Bytes)

  datatype Decree =
    | Welcome(token: Token)
    | Goodbye(token: Token)
    | Deliver(token: Token, response: Response)
    | Broadcast(token: Token, event: Bytes, message: Bytes, clients: seq<Token>)

  /** What a request adds to the subscription history. */
  function Actions(token: Token, c: ClientCommand): seq<Action> {
    match c
    case Database(_, _) => []
    case Subscribe(events) => [Action.Subscribe(token, events)]
    case Unsubscribe(events) => [Action.Unsubscribe(token, events)]
    case Publish(event, _) => [Action.Publish(token, event)]
  }

  /** The channels a client is subscribed to after a history. */
  function ChannelsOf(history: seq<Action>, token: Token): set<Bytes> {
    set p | p in Relation(history) && p.0 == token :: p.1
  }

  ghost predicate NoRepeats(clients: seq<Token>) {
    forall i, j :: 0 <= i < j < |clients| ==> clients[i] != clients[j]
  }

  /** The right answer to a request that is not a database command, after a history. */
  ghost predicate Answers(history: seq<Action>, token: Token, c: ClientCommand, d: Decree)
    requires !c.Database?
  {
    var held := ChannelsOf(history, token);
    match c
    case Subscribe(events) => d == Deliver(token, SubscribedChannels(Joined(held, events)))
    case Unsubscribe(events) =>
      d.Deliver? && d.token == token && d.response.UnsubscribedChannels? &&
      (match d.response.left
       case None => held == {}
       case Some(report) =>
         held != {} && if events == [] then DepartedAll(held, report) else report == Departed(held, events))
    case Publish(event, message) =>
      && d.Broadcast? && d.token == token && d.event == event && d.message == message
      && NoRepeats(d.clients)
      && forall t :: t in d.clients <==> (t, event) in Relation(history)
  }

  /** The right answer to a database command, and the right change of the keyspace: a refusal and none
      for a client with a subscription, the command's own for any other. */
  ghost predicate Executes(history: seq<Action>, token: Token, c: ClientCommand, d: Decree,
                           before: Keyspace.Keyspace, after: Keyspace.Keyspace)
    requires c.Database?
  {
    if ChannelsOf(history, token) != {}
    then d == Deliver(token, Error(SubscriberOnlyMode)) && after == before
    else d.Deliver? && d.token == token && Souls.Did(before, c.request, c.now, after, d.response)
  }

  /** The request ends the Temple thread: a database command of a client without subscriptions that panics. */
  predicate Falls(history: seq<Action>, token: Token, c: ClientCommand, m: Keyspace.Keyspace) {
    && c.Database? && ChannelsOf(history, token) == {}
    && Keyspace.Exec(m, c.request, c.now).1 == Keyspace.Panicked
  }

  class Temple {
    const soul: Souls.Soul
    const clientMap: Channels.ClientMap
    const eventMap: Channels.EventMap
    var subscribedClients: set<Token>
    var fallen: bool
    ghost var history: seq<Action>

    constructor ()
      ensures Valid() && !fallen && history == [] && soul.entries == map[]
      ensures fresh(soul) && fresh(clientMap) && fresh(eventMap)
    {
      soul := new Souls.Soul();
      clientMap := new Channels.ClientMap();
      eventMap := new Channels.EventMap();
      subscribedClients := {};
      fallen := false;
      history := [];
    }

    ghost function View(): Index
      reads this, clientMap, eventMap
    {
      Index(clientMap.sets, eventMap.sets, subscribedClients)
    }

    /** The index is the one its history leads to. */
    ghost predicate Valid()
      reads this, clientMap, eventMap
    {
      View() == Run(history) && AllAdmitted(history)
    }

    /** One turn of the loop. A database command is refused, and the keyspace left alone, exactly when its
        client is subscribed to something; otherwise it is executed. A panic is the last turn. */
    method Serve(token: Token, c: ClientCommand) returns (d: Option<Decree>)
      requires Valid() && !fallen
      requires c.Subscribe? ==> c.events != []
      modifies this, soul, clientMap, eventMap
      ensures Valid() && history == old(history) + Actions(token, c)
      ensures fallen == d.None? == Falls(old(history), token, c, old(soul.entries))
      ensures c.Database? && d.Some? ==> Executes(old(history), token, c, d.value, old(soul.entries), soul.entries)
      ensures c.Database? && d.None? ==> soul.entries == old(soul.entries)
      ensures !c.Database? ==> Answers(old(history), token, c, d.value) && soul.entries == old(soul.entries)
    {
      if c.Database? {
        d := ServeDatabase(token, c);
        fallen := d.None?;
      } else {
        var decree := ServeOther(token, c);
        d := Some(decree);
      }
    }

    method ServeOther(token: Token, c: ClientCommand) returns (d: Decree)
      requires Valid() && !c.Database?
      requires c.Subscribe? ==> c.events != []
      modifies this, clientMap, eventMap
      ensures Valid() && fallen == old(fallen) && history == old(history) + Actions(token, c)
      ensures Answers(old(history), token, c, d)
    {
      match c {
        case Subscribe(_) => d := Join(token, c);
        case Unsubscribe(_) => d := Part(token, c);
        case Publish(_, _) => d := Announce(token, c);
      }
    }

    method ServeDatabase(token: Token, c: ClientCommand) returns (d: Option<Decree>)
      requires Valid() && c.Database?
      modifies soul
      ensures Valid() && history == old(history) + Actions(token, c)
      ensures d.None? <==> Falls(history, token, c, old(soul.entries))
      ensures d.Some? ==> Executes(history, token, c, d.value, old(soul.entries), soul.entries)
      ensures d.None? ==> soul.entries == old(soul.entries)
    {
      IndexMatchesHistory(history, token);
      assert history + [] == history;
      if token in subscribedClients {
        return Some(Deliver(token, Error(SubscriberOnlyMode)));
      }
      var response := soul.Execute(c.request, c.now);
      if response.None? {
        PanicChangesNothing(old(soul.entries), c.request, c.now);
        return None;
      }
      d := Some(Deliver(token, response.value));
    }

    method Join(token: Token, c: ClientCommand) returns (d: Decree)
      requires Valid() && c.Subscribe? && c.events != []
      modifies this, clientMap, eventMap
      ensures Valid() && fallen == old(fallen) && history == old(history) + Actions(token, c)
      ensures Answers(old(history), token, c, d)
    {
      ghost var ix, a := View(), Action.Subscribe(token, c.events);
      assert Held(ix.events, token) == ChannelsOf(history, token) by {
        IndexMatchesHistory(history, token);
      }
      subscribedClients := subscribedClients + {token};
      var joined := eventMap.Subscribe(token, c.events);
      clientMap.Subscribe(token, c.events);
      assert Actions(token, c) == [a];
      assert View().events == PubSub.Apply(ix, a).events;
      assert View().clients == PubSub.Apply(ix, a).clients;
      Extend(history, a);
      history := history + [a];
      d := Deliver(token, SubscribedChannels(joined));
    }

    method Part(token: Token, c: ClientCommand) returns (d: Decree)
      requires Valid() && c.Unsubscribe?
      modifies this, clientMap, eventMap
      ensures Valid() && fallen == old(fallen) && history == old(history) + Actions(token, c)
      ensures Answers(old(history), token, c, d)
    {
      IndexMatchesHistory(history, token);
      var report, subscribed := eventMap.Unsubscribe(c.events, token, subscribedClients);
      subscribedClients := subscribed;
      if report.Some? {
        NamesReported(old(eventMap.sets[token]), c.events, report.value);
      }
      clientMap.Unsubscribe(token, report);
      Extend(history, Action.Unsubscribe(token, c.events));
      history := history + [Action.Unsubscribe(token, c.events)];
      d := Deliver(token, UnsubscribedChannels(report));
    }

    method Announce(token: Token, c: ClientCommand) returns (d: Decree)
      requires Valid() && c.Publish?
      modifies this
      ensures Valid() && fallen == old(fallen) && history == old(history) + Actions(token, c)
      ensures Answers(old(history), token, c, d)
    {
      var clients := clientMap.Publish(c.event);
      RecipientsMatchHistory(history, c.event);
      Extend(history, Action.Publish(token, c.event));
      history := history + [Action.Publish(token, c.event)];
      d := Broadcast(token, c.event, c.message, clients);
    }
  }

  lemma PanicChangesNothing(m: Keyspace.Keyspace, c: Keyspace.Request, now: Keyspace.Time)
    ensures Keyspace.Exec(m, c, now).1 == Keyspace.Panicked ==> Keyspace.Exec(m, c, now).0 == m
  {
    KeyspaceLaws.PanicsOnFarDeadline(m, c, now);
  }

  lemma Extend(history: seq<Action>, a: Action)
    requires AllAdmitted(history) && PubSub.Admitted(a)
    ensures AllAdmitted(history + [a])
    ensures Run(history + [a]) == PubSub.Apply(Run(history), a)
  {
  }

  /** What the index holds for a client is what its history says. */
  lemma IndexMatchesHistory(history: seq<Action>, token: Token)
    requires AllAdmitted(history)
    ensures var ix, held := Run(history), ChannelsOf(history, token);
            && (token in ix.subscribed <==> held != {})
            && (token in ix.events <==> held != {})
            && Held(ix.events, token) == held
  {
    IndexRefinesRelation(history);
    var ix, held := Run(history), ChannelsOf(history, token);
    forall e ensures e in Held(ix.events, token) <==> e in held {
      assert (token, e) in Relation(history) <==> token in ix.events && e in ix.events[token];
    }
    if token in ix.events {
      var e :| e in ix.events[token];
      assert e in held;
    }
  }

  lemma RecipientsMatchHistory(history: seq<Action>, event: Bytes)
    requires AllAdmitted(history)
    ensures forall t :: t in Recipients(Run(history).clients, event) <==> (t, event) in Relation(history)
  {
    IndexRefinesRelation(history);
  }

  /** The channels a report names are those the client leaves. */
  lemma NamesReported(s: set<Bytes>, events: seq<Bytes>, report: seq<Counted>)
    requires if events == [] then DepartedAll(s, report) else report == Departed(s, events)
    ensures Channels.NamesOf(report) == if events == [] then s else Keyspace.SetOf(events)
  {
    if events == [] {
      forall e | e in s ensures e in Channels.NamesOf(report) {
        assert Reported(report, e);
      }
    } else {
      forall e | e in events ensures e in Channels.NamesOf(report) {
        var i :| 0 <= i < |events| && events[i] == e;
        assert report[i].0 == e;
      }
    }
  }
}
