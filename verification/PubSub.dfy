/** The publish/subscribe index of src/temple.rs: two maps and a set of clients, which must agree with
    one relation between clients and channels. */
module PubSub {
  import opened Bytes
  import opened Replies
  import opened Keyspace

  /** The three structures as values. */
  datatype Index = Index(
    clients: map<Bytes, set<Token>>, events: map<Token, set<Bytes>>, subscribed: set<Token>)

  const EMPTY := Index(map[], map[], {})

  datatype Action =
    | Subscribe(token: Token, events: seq<Bytes>)
    | Unsubscribe(token: Token, events: seq<Bytes>)
    | Publish(token: Token, event: Bytes)

  /** token joins each channel in s. */
  function Join(clients: map<Bytes, set<Token>>, token: Token, s: set<Bytes>): map<Bytes, set<Token>> {
    map e | e in clients.Keys + s ::
      (if e in clients then clients[e] else {}) + if e in s then {token} else {}
  }

  /** token leaves each channel in s, and a channel left empty goes. */
  function Leave(clients: map<Bytes, set<Token>>, token: Token, s: set<Bytes>): map<Bytes, set<Token>> {
    map e | e in clients && !(e in s && clients[e] - {token} == {}) ::
      if e in s then clients[e] - {token} else clients[e]
  }

  function Held(events: map<Token, set<Bytes>>, token: Token): set<Bytes> {
    if token in events then events[token] else {}
  }

  function Apply(ix: Index, a: Action): Index {
    match a
    case Subscribe(t, events) =>
      Index(Join(ix.clients, t, SetOf(events)),
            ix.events[t := Held(ix.events, t) + SetOf(events)],
            ix.subscribed + {t})
    case Unsubscribe(t, events) =>
      if t !in ix.events then ix
      else
        var gone := if events == [] then ix.events[t] else SetOf(events);
        var left := ix.events[t] - gone;
        Index(Leave(ix.clients, t, gone),
              if left == {} then ix.events - {t} else ix.events[t := left],
              if left == {} then ix.subscribed - {t} else ix.subscribed)
    case Publish(_, _) => ix
  }

  function Run(actions: seq<Action>): Index {
    if actions == [] then EMPTY else Apply(Run(actions[..|actions| - 1]), actions[|actions| - 1])
  }

  /* ----- the relation ----- */

  function Change(r: set<(Token, Bytes)>, a: Action): set<(Token, Bytes)> {
    match a
    case Subscribe(t, events) => r + set e | e in SetOf(events) :: (t, e)
    case Unsubscribe(t, events) => set p | p in r && !(p.0 == t && (events == [] || p.1 in events))
    case Publish(_, _) => r
  }

  /** Who is subscribed to what after a run, from the history alone. */
  function Relation(actions: seq<Action>): set<(Token, Bytes)> {
    if actions == [] then {} else Change(Relation(actions[..|actions| - 1]), actions[|actions| - 1])
  }

  ghost predicate Agrees(ix: Index, r: set<(Token, Bytes)>) {
    && (forall t, e :: (t, e) in r <==> t in ix.events && e in ix.events[t])
    && (forall t, e :: (t, e) in r <==> e in ix.clients && t in ix.clients[e])
    && ix.subscribed == ix.events.Keys
    && (forall t :: t in ix.events ==> ix.events[t] != {})
    && (forall e :: e in ix.clients ==> ix.clients[e] != {})
  }

  /** SUBSCRIBE names at least one channel. */
  predicate Admitted(a: Action) {
    a.Subscribe? ==> a.events != []
  }

  predicate AllAdmitted(actions: seq<Action>) {
    forall i :: 0 <= i < |actions| ==> Admitted(actions[i])
  }

  lemma SubscribeAgrees(ix: Index, r: set<(Token, Bytes)>, t: Token, events: seq<Bytes>)
    requires Agrees(ix, r) && events != []
    ensures Agrees(Apply(ix, Subscribe(t, events)), Change(r, Subscribe(t, events)))
  {
    NothingEmpty(ix, t, events);
    var ix', r' := Apply(ix, Subscribe(t, events)), Change(r, Subscribe(t, events));
    forall t', e
      ensures (t', e) in r' <==> t' in ix'.events && e in ix'.events[t']
      ensures (t', e) in r' <==> e in ix'.clients && t' in ix'.clients[e]
    {
      SubscribeAgreesAt(ix, r, t, events, t', e);
    }
  }

  lemma SubscribeAgreesAt(ix: Index, r: set<(Token, Bytes)>, t: Token, events: seq<Bytes>, t': Token, e: Bytes)
    requires (t', e) in r <==> t' in ix.events && e in ix.events[t']
    requires (t', e) in r <==> e in ix.clients && t' in ix.clients[e]
    ensures var ix', r' := Apply(ix, Subscribe(t, events)), Change(r, Subscribe(t, events));
            && ((t', e) in r' <==> t' in ix'.events && e in ix'.events[t'])
            && ((t', e) in r' <==> e in ix'.clients && t' in ix'.clients[e])
  {
  }

  lemma NothingEmpty(ix: Index, t: Token, events: seq<Bytes>)
    requires events != [] && forall t :: t in ix.events ==> ix.events[t] != {}
    requires forall e :: e in ix.clients ==> ix.clients[e] != {}
    ensures var ix' := Apply(ix, Subscribe(t, events));
            && (forall t :: t in ix'.events ==> ix'.events[t] != {})
            && (forall e :: e in ix'.clients ==> ix'.clients[e] != {})
  {
    var ix' := Apply(ix, Subscribe(t, events));
    assert events[0] in ix'.events[t];
    forall e | e in ix'.clients ensures ix'.clients[e] != {} {
      if e in SetOf(events) {
        assert t in ix'.clients[e];
      }
    }
  }

  lemma UnsubscribeAgrees(ix: Index, r: set<(Token, Bytes)>, t: Token, events: seq<Bytes>)
    requires Agrees(ix, r)
    ensures Agrees(Apply(ix, Unsubscribe(t, events)), Change(r, Unsubscribe(t, events)))
  {
    var r' := Change(r, Unsubscribe(t, events));
    if t !in ix.events {
      assert r' == r;
    } else {
      var gone := if events == [] then ix.events[t] else SetOf(events);
      var left := ix.events[t] - gone;
      var ix' := Apply(ix, Unsubscribe(t, events));
      forall t', e ensures (t', e) in r' <==> t' in ix'.events && e in ix'.events[t'] {
        assert (t', e) in r <==> t' in ix.events && e in ix.events[t'];
        assert t' == t ==> (e in left <==> (t, e) in r');
      }
      forall t', e ensures (t', e) in r' <==> e in ix'.clients && t' in ix'.clients[e] {
        assert (t', e) in r <==> e in ix.clients && t' in ix.clients[e];
        if e in ix.clients && e in gone {
          assert t' in ix.clients[e] - {t} <==> t' in ix.clients[e] && t' != t;
        }
      }
    }
  }

  /** After any run of subscribe, unsubscribe and publish the three structures agree with the relation
      and hold no empty set. */
  lemma {:induction false} IndexRefinesRelation(actions: seq<Action>)
    requires AllAdmitted(actions)
    ensures Agrees(Run(actions), Relation(actions))
  {
    if actions != [] {
      var before, a := actions[..|actions| - 1], actions[|actions| - 1];
      IndexRefinesRelation(before);
      match a {
        case Subscribe(t, events) => SubscribeAgrees(Run(before), Relation(before), t, events);
        case Unsubscribe(t, events) => UnsubscribeAgrees(Run(before), Relation(before), t, events);
        case Publish(_, _) =>
      }
    }
  }

  /** So database commands are refused to exactly the clients with a subscription, and a message goes to
      exactly the clients of its channel. */
  lemma RefusedIffSubscribed(actions: seq<Action>, t: Token, e: Bytes)
    requires AllAdmitted(actions)
    ensures t in Run(actions).subscribed <==> exists e' :: (t, e') in Relation(actions)
    ensures t in Recipients(Run(actions).clients, e) <==> (t, e) in Relation(actions)
  {
    IndexRefinesRelation(actions);
    var ix := Run(actions);
    if t in ix.events {
      var e' :| e' in ix.events[t];
      assert (t, e') in Relation(actions);
    }
  }

  function Recipients(clients: map<Bytes, set<Token>>, event: Bytes): set<Token> {
    if event in clients then clients[event] else {}
  }

  /* ----- the replies ----- */

  /** SUBSCRIBE's report, from a client holding s: each channel that is new when its turn comes, with the
      number then held. */
  function Joined(s: set<Bytes>, events: seq<Bytes>): seq<Counted>
    decreases |events|
  {
    if events == [] then []
    else if events[0] in s then Joined(s, events[1..])
    else [(events[0], |s| + 1)] + Joined(s + {events[0]}, events[1..])
  }

  /** Its counts rise by one to the number held at the end. */
  lemma {:induction false} JoinedCounts(s: set<Bytes>, events: seq<Bytes>)
    ensures forall i :: 0 <= i < |Joined(s, events)| ==> Joined(s, events)[i].1 == |s| + i + 1
    ensures |s + SetOf(events)| == |s| + |Joined(s, events)|
    decreases |events|
  {
    if events == [] {
      assert s + SetOf(events) == s;
    } else {
      var s1 := s + {events[0]};
      JoinedCounts(s1, events[1..]);
      assert s + SetOf(events) == s1 + SetOf(events[1..]);
      if events[0] in s {
        assert s1 == s;
      }
    }
  }

  predicate Reported(report: seq<Counted>, e: Bytes) {
    exists i :: 0 <= i < |report| && report[i].0 == e
  }

  /** It lists exactly the channels added. */
  lemma {:induction false} JoinedNames(s: set<Bytes>, events: seq<Bytes>, e: Bytes)
    ensures Reported(Joined(s, events), e) <==> e in events && e !in s
    decreases |events|
  {
    if events != [] {
      var s1, report := s + {events[0]}, Joined(s, events);
      JoinedNames(s1, events[1..], e);
      if events[0] in s {
        assert s1 == s;
      } else {
        var tail := Joined(s1, events[1..]);
        assert report == [(events[0], |s| + 1)] + tail;
        assert e == events[0] ==> report[0].0 == e;
        assert forall i :: 0 <= i < |tail| ==> report[i + 1] == tail[i];
      }
    }
  }

  /** It lists each of them once. */
  lemma {:induction false} JoinedOnce(s: set<Bytes>, events: seq<Bytes>, i: nat, j: nat)
    requires i < j < |Joined(s, events)|
    ensures Joined(s, events)[i].0 != Joined(s, events)[j].0
    decreases |events|
  {
    if events[0] in s {
      JoinedOnce(s, events[1..], i, j);
    } else {
      var s1 := s + {events[0]};
      var tail := Joined(s1, events[1..]);
      if i == 0 {
        JoinedNames(s1, events[1..], tail[j - 1].0);
        assert Reported(tail, tail[j - 1].0);
      } else {
        JoinedOnce(s1, events[1..], i - 1, j - 1);
      }
    }
  }

  function StillHeld(s: set<Bytes>, events: seq<Bytes>, n: nat): nat
    requires n <= |events|
  {
    |s - SetOf(events[..n])|
  }

  /** UNSUBSCRIBE's report when it names channels: every name, with the number held after its turn. */
  function Departed(s: set<Bytes>, events: seq<Bytes>): seq<Counted> {
    seq(|events|, i requires 0 <= i < |events| => (events[i], StillHeld(s, events, i + 1)))
  }

  lemma OneFewer(s: set<Bytes>, events: seq<Bytes>, i: nat)
    requires i < |events|
    ensures StillHeld(s, events, i + 1) ==
            StillHeld(s, events, i) - if events[i] in s - SetOf(events[..i]) then 1 else 0
  {
    var before := s - SetOf(events[..i]);
    assert events[..i + 1] == events[..i] + [events[i]];
    assert s - SetOf(events[..i + 1]) == before - {events[i]};
  }

  lemma HeldAtTheEnds(s: set<Bytes>, events: seq<Bytes>)
    ensures StillHeld(s, events, 0) == |s| && StillHeld(s, events, |events|) == |s - SetOf(events)|
  {
    assert events[..0] == [] && s - SetOf([]) == s;
    assert events[..|events|] == events;
  }

  lemma DepartedAt(s: set<Bytes>, events: seq<Bytes>, i: nat)
    requires i < |events|
    ensures Departed(s, events)[i].1 == StillHeld(s, events, i + 1)
  {
  }

  /** Every name in order, each with the number of channels held that has not been named by then. */
  lemma DepartedInOrder(s: set<Bytes>, events: seq<Bytes>)
    ensures |Departed(s, events)| == |events|
    ensures forall i {:trigger Departed(s, events)[i]} :: 0 <= i < |events| ==>
              && Departed(s, events)[i].0 == events[i]
              && Departed(s, events)[i].1 == |s - SetOf(events[..i + 1])|
  {
    forall i | 0 <= i < |events|
      ensures Departed(s, events)[i].0 == events[i]
      ensures Departed(s, events)[i].1 == |s - SetOf(events[..i + 1])|
    {
      DepartedAt(s, events, i);
    }
  }

  /** The counts start from the number held, never rise and drop by one at a time if at all. */
  lemma DepartedSteps(s: set<Bytes>, events: seq<Bytes>, i: nat)
    requires i < |events|
    ensures Departed(s, events)[i].1 <= StillHeld(s, events, i) <= Departed(s, events)[i].1 + 1
    ensures StillHeld(s, events, i) == if i == 0 then |s| else Departed(s, events)[i - 1].1
  {
    OneFewer(s, events, i);
    DepartedAt(s, events, i);
    if i == 0 {
      HeldAtTheEnds(s, events);
    } else {
      DepartedAt(s, events, i - 1);
    }
  }

  /** They end at the number still held. */
  lemma DepartedEnds(s: set<Bytes>, events: seq<Bytes>)
    requires events != []
    ensures Departed(s, events)[|events| - 1].1 == |s - SetOf(events)|
  {
    DepartedAt(s, events, |events| - 1);
    HeldAtTheEnds(s, events);
  }

  /** UNSUBSCRIBE's report when it names none: each channel held, once, in some order, counting down to
      zero. */
  ghost predicate DepartedAll(s: set<Bytes>, report: seq<Counted>) {
    && |report| == |s|
    && (forall i :: 0 <= i < |report| ==> report[i].1 == |s| - 1 - i && report[i].0 in s)
    && (forall i, j :: 0 <= i < j < |report| ==> report[i].0 != report[j].0)
    && (forall e :: e in s ==> Reported(report, e))
  }
}
