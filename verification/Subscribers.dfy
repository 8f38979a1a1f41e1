/** Publish and subscribe from the requests alone: who is subscribed after a sequence of requests, and what
    the answers to the requests say of it. */
module Subscribers {
  import opened Bytes
  import opened Replies
  import PubSub
  import Keyspace
  import T = Temples
  import H = Handoff
  import opened Heaven

  /** The request subscribes client t to channel e. */
  predicate Joins(mean: Meaning, w: H.Wish, t: Token, e: Bytes) {
    w.token == t && Asked(mean, w).Subscribe? && e in Asked(mean, w).events
  }

  /** It ends client t's subscription to channel e, naming it or naming no channel at all. */
  predicate Parts(mean: Meaning, w: H.Wish, t: Token, e: Bytes) {
    w.token == t && Asked(mean, w).Unsubscribe? && (Asked(mean, w).events == [] || e in Asked(mean, w).events)
  }

  /** Client t has subscribed to channel e and has not unsubscribed since. */
  ghost predicate Subscribed(mean: Meaning, ws: seq<H.Wish>, t: Token, e: Bytes) {
    exists i :: 0 <= i < |ws| && Joins(mean, ws[i], t, e) && forall j :: i < j < |ws| ==> !Parts(mean, ws[j], t, e)
  }

  /** One more request decides by itself, or leaves things as they are. */
  lemma {:induction false} SubscribedOn(mean: Meaning, ws: seq<H.Wish>, w: H.Wish, t: Token, e: Bytes)
    ensures Subscribed(mean, ws + [w], t, e) <==>
            Joins(mean, w, t, e) || (Subscribed(mean, ws, t, e) && !Parts(mean, w, t, e))
  {
    var ws' := ws + [w];
    assert ws'[..|ws|] == ws && ws'[|ws|] == w;
    if Subscribed(mean, ws', t, e) {
      var i :| 0 <= i < |ws'| && Joins(mean, ws'[i], t, e) && forall j :: i < j < |ws'| ==> !Parts(mean, ws'[j], t, e);
      assert i < |ws| ==> !Parts(mean, ws'[|ws|], t, e);
      assert forall j :: i < j < |ws| ==> ws[j] == ws'[j];
    }
    if Subscribed(mean, ws, t, e) && !Parts(mean, w, t, e) {
      var i :| 0 <= i < |ws| && Joins(mean, ws[i], t, e) && forall j :: i < j < |ws| ==> !Parts(mean, ws[j], t, e);
      assert ws'[i] == ws[i];
      assert forall j :: i < j < |ws'| ==> ws'[j] == if j < |ws| then ws[j] else w;
    }
  }

  lemma ActionRelates(history: seq<PubSub.Action>, a: PubSub.Action, t: Token, e: Bytes)
    ensures (t, e) in PubSub.Relation(history + [a]) <==>
            match a
            case Subscribe(t', events) => (t, e) in PubSub.Relation(history) || (t == t' && e in events)
            case Unsubscribe(t', events) =>
              (t, e) in PubSub.Relation(history) && !(t == t' && (events == [] || e in events))
            case Publish(_, _) => (t, e) in PubSub.Relation(history)
  {
    assert (history + [a])[..|history|] == history;
  }

  lemma CommandRelates(history: seq<PubSub.Action>, token: Token, c: T.ClientCommand, t: Token, e: Bytes)
    ensures (t, e) in PubSub.Relation(history + T.Actions(token, c)) <==>
            || (token == t && c.Subscribe? && e in c.events)
            || ((t, e) in PubSub.Relation(history) &&
                !(token == t && c.Unsubscribe? && (c.events == [] || e in c.events)))
  {
    match c {
      case Database(_, _) => assert history + [] == history;
      case Subscribe(events) => ActionRelates(history, PubSub.Action.Subscribe(token, events), t, e);
      case Unsubscribe(events) => ActionRelates(history, PubSub.Action.Unsubscribe(token, events), t, e);
      case Publish(event, _) => ActionRelates(history, PubSub.Action.Publish(token, event), t, e);
    }
  }

  /** What the request does to the relation, and to the subscriptions. */
  lemma OneMoreAgrees(mean: Meaning, ws: seq<H.Wish>, w: H.Wish, ws': seq<H.Wish>, t: Token, e: Bytes)
    requires (t, e) in PubSub.Relation(HistoryOf(mean, ws)) <==> Subscribed(mean, ws, t, e)
    requires ws' == ws + [w]
    ensures (t, e) in PubSub.Relation(HistoryOf(mean, ws')) <==> Subscribed(mean, ws', t, e)
  {
    OneMoreServed(mean, ws, w);
    CommandRelates(HistoryOf(mean, ws), w.token, Asked(mean, w), t, e);
    SubscribedOn(mean, ws, w, t, e);
  }

  /** The relation everything is told by is that of the requests: a client is subscribed to a channel if and
      only if some SUBSCRIBE of it names the channel, and no later UNSUBSCRIBE of it names the channel or
      names nothing. */
  lemma {:induction false} RelationIsSubscription(mean: Meaning, ws: seq<H.Wish>, t: Token, e: Bytes)
    ensures (t, e) in PubSub.Relation(HistoryOf(mean, ws)) <==> Subscribed(mean, ws, t, e)
  {
    if ws != [] {
      var before, w := ws[..|ws| - 1], ws[|ws| - 1];
      RelationIsSubscription(mean, before, t, e);
      OneMoreAgrees(mean, before, w, ws, t, e);
    }
  }

  /** The channels a client is subscribed to. */
  lemma ChannelsAreSubscriptions(mean: Meaning, ws: seq<H.Wish>, t: Token, e: Bytes)
    ensures e in T.ChannelsOf(HistoryOf(mean, ws), t) <==> Subscribed(mean, ws, t, e)
  {
    RelationIsSubscription(mean, ws, t, e);
    if (t, e) in PubSub.Relation(HistoryOf(mean, ws)) {
      assert (t, e).0 == t;
    }
  }

  lemma AllChannelsAreSubscriptions(mean: Meaning, ws: seq<H.Wish>, t: Token) returns (held: set<Bytes>)
    ensures held == T.ChannelsOf(HistoryOf(mean, ws), t)
    ensures forall e :: e in held <==> Subscribed(mean, ws, t, e)
  {
    held := T.ChannelsOf(HistoryOf(mean, ws), t);
    forall e ensures e in held <==> Subscribed(mean, ws, t, e) {
      ChannelsAreSubscriptions(mean, ws, t, e);
    }
  }

  /* ----- what the answers say ----- */

  /** A message goes, as it was published, once to each client subscribed to its channel and to no other. */
  lemma MessagesReachSubscribers(mean: Meaning, ws: seq<H.Wish>, w: H.Wish, d: T.Decree)
    requires Right(mean, ws, w, d) && Asked(mean, w).Publish?
    ensures d.Broadcast? && d.token == w.token
    ensures d.event == Asked(mean, w).event && d.message == Asked(mean, w).message
    ensures forall i, j :: 0 <= i < j < |d.clients| ==> d.clients[i] != d.clients[j]
    ensures forall t :: t in d.clients <==> Subscribed(mean, ws, t, d.event)
  {
    forall t ensures t in d.clients <==> Subscribed(mean, ws, t, d.event) {
      RelationIsSubscription(mean, ws, t, d.event);
    }
  }

  /** No command of the keyspace answers with the refusal. */
  lemma NeverRefusesItself(m: Keyspace.Keyspace, c: Keyspace.Request, now: Keyspace.Time)
    ensures Keyspace.Exec(m, c, now).1 != Keyspace.Exactly(Error(SubscriberOnlyMode))
  {
  }

  /** A database command is refused, and changes nothing, if and only if its client is subscribed to some
      channel. */
  lemma RefusedIffSubscribed(mean: Meaning, ws: seq<H.Wish>, w: H.Wish, d: T.Decree)
    requires Right(mean, ws, w, d) && Asked(mean, w).Database?
    ensures d.Deliver? && d.token == w.token
    ensures d.response == Error(SubscriberOnlyMode) <==> exists e :: Subscribed(mean, ws, w.token, e)
    ensures (exists e :: Subscribed(mean, ws, w.token, e)) ==> KeyspaceOf(mean, ws + [w]) == KeyspaceOf(mean, ws)
  {
    var held := AllChannelsAreSubscriptions(mean, ws, w.token);
    var c := Asked(mean, w);
    NeverRefusesItself(KeyspaceOf(mean, ws), c.request, c.now);
    if held != {} {
      var e :| e in held;
      assert Subscribed(mean, ws, w.token, e);
    }
  }

  /** SUBSCRIBE is told the channels named that the client was not subscribed to, each once, with counts that
      rise by one from the number it held. */
  lemma NewChannelsAreTold(mean: Meaning, ws: seq<H.Wish>, w: H.Wish, d: T.Decree) returns (held: set<Bytes>)
    requires Right(mean, ws, w, d) && Asked(mean, w).Subscribe?
    ensures forall e :: e in held <==> Subscribed(mean, ws, w.token, e)
    ensures d.Deliver? && d.token == w.token && d.response.SubscribedChannels?
    ensures var report := d.response.joined;
            && (forall e :: PubSub.Reported(report, e) <==> e in Asked(mean, w).events && e !in held)
            && (forall i, j :: 0 <= i < j < |report| ==> report[i].0 != report[j].0)
            && (forall i :: 0 <= i < |report| ==> report[i].1 == |held| + i + 1)
  {
    held := AllChannelsAreSubscriptions(mean, ws, w.token);
    var events := Asked(mean, w).events;
    var report := PubSub.Joined(held, events);
    forall e ensures PubSub.Reported(report, e) <==> e in events && e !in held {
      PubSub.JoinedNames(held, events, e);
    }
    forall i, j | 0 <= i < j < |report| ensures report[i].0 != report[j].0 {
      PubSub.JoinedOnce(held, events, i, j);
    }
    PubSub.JoinedCounts(held, events);
  }

  /** UNSUBSCRIBE is told that there is nothing left if the client was subscribed to nothing; otherwise every
      name it gave, in order, with the number of channels still held after it. */
  lemma LeftChannelsAreTold(mean: Meaning, ws: seq<H.Wish>, w: H.Wish, d: T.Decree) returns (held: set<Bytes>)
    requires Right(mean, ws, w, d) && Asked(mean, w).Unsubscribe? && Asked(mean, w).events != []
    ensures forall e :: e in held <==> Subscribed(mean, ws, w.token, e)
    ensures d.Deliver? && d.token == w.token && d.response.UnsubscribedChannels?
    ensures d.response.left.None? <==> held == {}
    ensures var events := Asked(mean, w).events;
            d.response.left.Some? ==>
              var report := d.response.left.value;
              && |report| == |events|
              && forall i :: 0 <= i < |report| ==>
                   report[i].0 == events[i] && report[i].1 == |held - Keyspace.SetOf(events[..i + 1])|
  {
    held := AllChannelsAreSubscriptions(mean, ws, w.token);
    PubSub.DepartedInOrder(held, Asked(mean, w).events);
  }

  /** UNSUBSCRIBE without names is told every channel the client was subscribed to, each once, counting down
      to zero. */
  lemma AllChannelsAreLeft(mean: Meaning, ws: seq<H.Wish>, w: H.Wish, d: T.Decree) returns (held: set<Bytes>)
    requires Right(mean, ws, w, d) && Asked(mean, w).Unsubscribe? && Asked(mean, w).events == []
    ensures forall e :: e in held <==> Subscribed(mean, ws, w.token, e)
    ensures d.Deliver? && d.token == w.token && d.response.UnsubscribedChannels?
    ensures d.response.left.None? <==> held == {}
    ensures d.response.left.Some? ==>
              var report := d.response.left.value;
              && (forall e :: PubSub.Reported(report, e) <==> e in held)
              && (forall i, j :: 0 <= i < j < |report| ==> report[i].0 != report[j].0)
              && (forall i :: 0 <= i < |report| ==> report[i].1 == |report| - 1 - i)
  {
    held := AllChannelsAreSubscriptions(mean, ws, w.token);
  }

  /** In every interleaving every message published goes to exactly the clients subscribed by the requests
      served before it. */
  lemma PublishedToSubscribers(mean: Meaning, streams: Token -> seq<H.Job>, steps: seq<H.Step>, states: seq<Whole>,
                               k: nat)
    requires Runs(mean, streams, steps, states)
    requires k < |states[|steps|].system.served| && Asked(mean, states[|steps|].system.served[k]).Publish?
    ensures var s := states[|steps|];
            var ws, answers := s.system.served, AnswersIn(s.system.outbox, s.sent);
            && |answers| == |ws| && answers[k].Broadcast?
            && forall t :: t in answers[k].clients <==> Subscribed(mean, ws[..k], t, Asked(mean, ws[k]).event)
  {
    AnswersAreSequential(mean, streams, steps, states);
    var s := states[|steps|];
    var ws, answers := s.system.served, AnswersIn(s.system.outbox, s.sent);
    assert Right(mean, ws[..k], ws[k], answers[k]);
    MessagesReachSubscribers(mean, ws[..k], ws[k], answers[k]);
  }
}
