/** ClientMap and EventMap of src/temple.rs in their own form: maps of sets updated in place, with
    running counters. */
module Channels {
  import opened Bytes
  import opened Replies
  import opened Keyspace
  import opened PubSub

  function NamesOf(report: seq<Counted>): set<Bytes> {
    set i | 0 <= i < |report| :: report[i].0
  }

  /** Who is subscribed to a channel. */
  class ClientMap {
    var sets: map<Bytes, set<Token>>

    constructor ()
      ensures sets == map[]
    {
      sets := map[];
    }

    method Subscribe(token: Token, events: seq<Bytes>)
      modifies this
      ensures sets == Join(old(sets), token, SetOf(events))
    {
      JoinNothing(sets, token);
      assert SetOf(events[..0]) == {};
      for i := 0 to |events|
        invariant sets == Join(old(sets), token, SetOf(events[..i]))
      {
        JoinOneMore(old(sets), token, events, i);
        if events[i] in sets {
          sets := sets[events[i] := sets[events[i]] + {token}];
        } else {
          assert {} + {token} == {token};
          sets := sets[events[i] := {token}];
        }
      }
      assert events[..|events|] == events;
    }

    method Unsubscribe(token: Token, events: Option<seq<Counted>>)
      modifies this
      ensures sets == if events.None? then old(sets) else Leave(old(sets), token, NamesOf(events.value))
    {
      if events.None? {
        return;
      }
      var report := events.value;
      assert Leave(sets, token, NamesOf(report[..0])) == sets;
      for i := 0 to |report|
        invariant sets == Leave(old(sets), token, NamesOf(report[..i]))
      {
        LeaveOneMore(old(sets), token, report, i);
        var event := report[i].0;
        if event in sets {
          var left := sets[event] - {token};
          sets := if left == {} then sets - {event} else sets[event := left];
        }
      }
      assert report[..|report|] == report;
    }

    method Publish(event: Bytes) returns (clients: seq<Token>)
      ensures forall i, j :: 0 <= i < j < |clients| ==> clients[i] != clients[j]
      ensures forall t :: t in clients <==> t in Recipients(sets, event)
    {
      clients := [];
      var rest := Recipients(sets, event);
      while rest != {}
        invariant rest <= Recipients(sets, event)
        invariant forall i, j :: 0 <= i < j < |clients| ==> clients[i] != clients[j]
        invariant forall t :: t in clients <==> t in Recipients(sets, event) - rest
        decreases rest
      {
        var t :| t in rest;
        assert t !in clients;
        clients := clients + [t];
        rest := rest - {t};
      }
    }
  }

  lemma JoinNothing(c: map<Bytes, set<Token>>, token: Token)
    ensures Join(c, token, {}) == c
  {
    assert c.Keys + {} == c.Keys;
    forall e | e in c ensures Join(c, token, {})[e] == c[e] {
      assert c[e] + {} == c[e];
    }
  }

  lemma JoinOneMore(c: map<Bytes, set<Token>>, token: Token, events: seq<Bytes>, i: nat)
    requires i < |events|
    ensures var before := Join(c, token, SetOf(events[..i]));
            Join(c, token, SetOf(events[..i + 1])) ==
            before[events[i] := (if events[i] in before then before[events[i]] else {}) + {token}]
  {
    assert events[..i + 1] == events[..i] + [events[i]];
    assert SetOf(events[..i + 1]) == SetOf(events[..i]) + {events[i]};
    JoinMore(c, token, SetOf(events[..i]), events[i]);
  }

  lemma JoinMore(c: map<Bytes, set<Token>>, token: Token, s: set<Bytes>, e: Bytes)
    ensures var before := Join(c, token, s);
            Join(c, token, s + {e}) == before[e := (if e in before then before[e] else {}) + {token}]
  {
    var before, after := Join(c, token, s), Join(c, token, s + {e});
    var expected := before[e := (if e in before then before[e] else {}) + {token}];
    assert after.Keys == expected.Keys;
    forall x | x in after ensures after[x] == expected[x] {
      if x != e {
        assert x in s + {e} <==> x in s;
      }
    }
  }

  lemma LeaveOneMore(c: map<Bytes, set<Token>>, token: Token, report: seq<Counted>, i: nat)
    requires i < |report|
    ensures var before, e := Leave(c, token, NamesOf(report[..i])), report[i].0;
            Leave(c, token, NamesOf(report[..i + 1])) ==
            if e !in before then before
            else if before[e] - {token} == {} then before - {e}
            else before[e := before[e] - {token}]
  {
    var s, e := NamesOf(report[..i]), report[i].0;
    assert NamesOf(report[..i + 1]) == s + {e};
    LeaveMore(c, token, s, e);
  }

  lemma LeaveMore(c: map<Bytes, set<Token>>, token: Token, s: set<Bytes>, e: Bytes)
    ensures var before := Leave(c, token, s);
            Leave(c, token, s + {e}) ==
            if e !in before then before
            else if before[e] - {token} == {} then before - {e}
            else before[e := before[e] - {token}]
  {
    if e in c && e in s {
      assert c[e] - {token} - {token} == c[e] - {token};
    }
  }

  /** What a client is subscribed to. */
  class EventMap {
    var sets: map<Token, set<Bytes>>

    constructor ()
      ensures sets == map[]
    {
      sets := map[];
    }

    method Subscribe(token: Token, events: seq<Bytes>) returns (result: seq<Counted>)
      modifies this
      ensures sets == old(sets)[token := Held(old(sets), token) + SetOf(events)]
      ensures result == Joined(Held(old(sets), token), events)
    {
      var held;
      result, held := JoinLoop(Held(sets, token), events);
      sets := sets[token := held];
    }

    /** With names: all of them, with the counts going down. Without: everything held. */
    method Unsubscribe(events: seq<Bytes>, token: Token, subscribedClients: set<Token>)
      returns (result: Option<seq<Counted>>, subscribed: set<Token>)
      modifies this
      ensures token !in old(sets) ==> result == None && sets == old(sets) && subscribed == subscribedClients
      ensures token in old(sets) ==>
                var s := old(sets)[token];
                var left := if events == [] then {} else s - SetOf(events);
                && result.Some?
                && (if events == [] then DepartedAll(s, result.value) else result.value == Departed(s, events))
                && sets == (if left == {} then old(sets) - {token} else old(sets)[token := left])
                && subscribed == if left == {} then subscribedClients - {token} else subscribedClients
    {
      subscribed := subscribedClients;
      if token !in sets {
        return None, subscribed;
      }
      var existing := sets[token];
      if |events| > 0 {
        var report, left := LeaveNamed(existing, events);
        sets := sets[token := left];
        if left == {} {
          sets := sets - {token};
          subscribed := subscribed - {token};
        }
        result := Some(report);
      } else {
        var report := LeaveEverything(existing);
        subscribed := subscribed - {token};
        sets := sets - {token};
        result := Some(report);
      }
    }
  }

  lemma SetOfOneMore(s: set<Bytes>, events: seq<Bytes>, i: nat)
    requires i < |events|
    ensures s + SetOf(events[..i + 1]) == (s + SetOf(events[..i])) + {events[i]}
    ensures s - SetOf(events[..i + 1]) == (s - SetOf(events[..i])) - {events[i]}
  {
  }

  lemma SetOfNone(s: set<Bytes>, events: seq<Bytes>)
    ensures s + SetOf(events[..0]) == s && s - SetOf(events[..0]) == s
  {
  }

  lemma JoinedStep(result: seq<Counted>, held: set<Bytes>, events: seq<Bytes>, i: nat)
    requires i < |events|
    ensures var rest := Joined(held + {events[i]}, events[i + 1..]);
            result + Joined(held, events[i..]) ==
            (if events[i] in held then result else result + [(events[i], |held| + 1)]) + rest
  {
    assert events[i..][1..] == events[i + 1..];
    if events[i] in held {
      assert held + {events[i]} == held;
    } else {
      var x: seq<Counted> := [(events[i], |held| + 1)];
      var rest := Joined(held + {events[i]}, events[i + 1..]);
      assert result + (x + rest) == (result + x) + rest;
    }
  }

  lemma GrowsByNew(held: set<Bytes>, e: Bytes)
    ensures e in held ==> held + {e} == held
    ensures e !in held ==> |held + {e}| == |held| + 1
  {
  }

  method JoinLoop(existing: set<Bytes>, events: seq<Bytes>) returns (result: seq<Counted>, held: set<Bytes>)
    ensures result == Joined(existing, events) && held == existing + SetOf(events)
  {
    result, held := [], existing;
    var count := |held|;
    ghost var goal, rest := Joined(existing, events), Joined(existing, events);
    SetOfNone(existing, events);
    assert events[0..] == events;
    for i := 0 to |events|
      invariant count == |held| && held == existing + SetOf(events[..i])
      invariant rest == Joined(held, events[i..]) && result + rest == goal
    {
      JoinedStep(result, held, events, i);
      SetOfOneMore(existing, events, i);
      GrowsByNew(held, events[i]);
      if events[i] !in held {
        count := count + 1;
        result := result + [(events[i], count)];
      }
      held := held + {events[i]};
      rest := Joined(held, events[i + 1..]);
    }
    assert events[..|events|] == events;
    assert result + [] == result;
  }

  lemma ShrinksByHeld(left: set<Bytes>, e: Bytes)
    ensures |left - {e}| == |left| - if e in left then 1 else 0
  {
    if e !in left {
      assert left - {e} == left;
    }
  }

  method LeaveNamed(existing: set<Bytes>, events: seq<Bytes>) returns (report: seq<Counted>, left: set<Bytes>)
    ensures report == Departed(existing, events) && left == existing - SetOf(events)
  {
    report, left := [], existing;
    var count := |existing|;
    SetOfNone(existing, events);
    for i := 0 to |events|
      invariant left == existing - SetOf(events[..i]) && count == |left|
      invariant report == Departed(existing, events)[..i]
    {
      SetOfOneMore(existing, events, i);
      ShrinksByHeld(left, events[i]);
      if events[i] in left {
        count := count - 1;
      }
      left := left - {events[i]};
      DepartedOneMore(existing, events, i);
      report := report + [(events[i], count)];
    }
    assert events[..|events|] == events;
  }

  lemma DepartedOneMore(existing: set<Bytes>, events: seq<Bytes>, i: nat)
    requires i < |events|
    ensures Departed(existing, events)[..i + 1] ==
            Departed(existing, events)[..i] + [(events[i], |existing - SetOf(events[..i + 1])|)]
  {
  }

  method LeaveEverything(existing: set<Bytes>) returns (report: seq<Counted>)
    ensures DepartedAll(existing, report)
  {
    report := [];
    var rest := existing;
    var count := |existing|;
    while rest != {}
      invariant rest <= existing && count == |rest| && |report| + count == |existing|
      invariant forall i :: 0 <= i < |report| ==> report[i].1 == |existing| - 1 - i && report[i].0 in existing - rest
      invariant forall i, j :: 0 <= i < j < |report| ==> report[i].0 != report[j].0
      invariant forall e :: e in existing - rest ==> Reported(report, e)
      decreases rest
    {
      var event :| event in rest;
      count := count - 1;
      ghost var before, seen := report, existing - rest;
      report := report + [(event, count)];
      rest := rest - {event};
      forall e | e in existing - rest ensures Reported(report, e) {
        if e == event {
          assert report[|before|].0 == e;
        } else {
          assert e in seen && Reported(before, e);
          var i :| 0 <= i < |before| && before[i].0 == e;
          assert report[i].0 == e;
        }
      }
    }
  }
}
