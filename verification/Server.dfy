/** The event loop of src/server.rs in its own form. Each pass over it is proved to be a run of the event
    loop's steps of the hand-off machine. */
module Server {
  import opened Bytes
  import opened Handoff

  /** What becomes of a waiting connection: it is taken in; or accepting it or cloning its socket fails; or
      the egress thread can no longer be told of it. */
  datatype Arrival = Taken | Failed | Unheard

  /** What a poll reports: connections waiting at the listener, or a readable client. */
  datatype Event = Listener(waiting: seq<Arrival>) | Readable(token: Token)

  class EventLoop {
    var ingressMap: map<Token, Pilgrim>
    var pilgrimCounter: Token
    var choir: seq<Song>
    var ingressRx: seq<Song>
    var egressRx: seq<Token>
    var pilgrimTx: seq<Letter>
    ghost var reached: map<Token, nat>

    constructor ()
      ensures forall streams :: View(Start(streams)) == Start(streams)
    {
      ingressMap, pilgrimCounter := map[], 1;
      choir, ingressRx, egressRx, pilgrimTx := [], [], [], [];
      reached := map[];
    }

    /** The whole system, the other threads being as in s. */
    ghost function View(s: System): System
      reads this
    {
      s.(ingress := ingressMap, counter := pilgrimCounter, choir := choir, returned := ingressRx,
         notices := egressRx, outbox := pilgrimTx, reached := reached)
    }

    method TakeReturnedConnections(ghost s: System) returns (ghost steps: seq<Step>)
      modifies this
      ensures View(s) == RunFrom(old(View(s)), steps) && ingressRx == [] && egressRx == old(egressRx)
      ensures steps == Times(|old(ingressRx)|, TakeReturned)
    {
      steps := [];
      while |ingressRx| > 0
        invariant View(s) == RunFrom(old(View(s)), steps) && egressRx == old(egressRx)
        invariant |steps| + |ingressRx| == |old(ingressRx)| && steps == Times(|steps|, TakeReturned)
        decreases |ingressRx|
      {
        OneMoreStep(old(View(s)), steps, TakeReturned);
        TimesOn(|steps|, TakeReturned);
        steps := steps + [TakeReturned];
        var song := ingressRx[0];
        ingressRx := ingressRx[1..];
        ingressMap := ingressMap[song.token := song.pilgrim];
      }
    }

    /** A notice from the interrupt handler ends the process; what lies behind it is never taken. */
    method TakeNotices(ghost s: System) returns (exit: bool, ghost steps: seq<Step>)
      modifies this
      ensures View(s) == RunFrom(old(View(s)), steps)
      ensures exit <==> SERVER in old(egressRx)
      ensures steps == Times(BeforeInterrupt(old(egressRx)), TakeNotice)
      ensures |steps| <= |old(egressRx)| && egressRx == old(egressRx)[|steps|..]
    {
      steps := [];
      ghost var all := egressRx;
      while |egressRx| > 0
        invariant View(s) == RunFrom(old(View(s)), steps)
        invariant |steps| <= |old(egressRx)| && egressRx == old(egressRx)[|steps|..]
        invariant forall i :: 0 <= i < |steps| ==> old(egressRx)[i] != SERVER
        invariant steps == Times(|steps|, TakeNotice)
        decreases |egressRx|
      {
        if egressRx[0] == SERVER {
          FirstInterrupt(all, |steps|);
          return true, steps;
        }
        OneMoreStep(old(View(s)), steps, TakeNotice);
        TimesOn(|steps|, TakeNotice);
        steps := steps + [TakeNotice];
        HeedNotice(s);
      }
      NoInterrupt(all);
      return false, steps;
    }

    method HeedNotice(ghost s: System)
      requires egressRx != []
      modifies this
      ensures View(s) == Next(old(View(s)), TakeNotice) && egressRx == old(egressRx)[1..]
    {
      var token := egressRx[0];
      egressRx := egressRx[1..];
      ingressMap := ingressMap - {token};
    }

    /** The steps that arrivals lead to. A failed one leaves no trace. */
    static ghost function StepsOf(waiting: seq<Arrival>): seq<Step> {
      if waiting == [] then []
      else StepsOf(waiting[..|waiting| - 1]) +
           match waiting[|waiting| - 1] case Taken => [Accept] case Failed => [] case Unheard => [AcceptUnheard]
    }

    method AcceptAll(waiting: seq<Arrival>, ghost s: System) returns (ghost steps: seq<Step>)
      modifies this
      ensures View(s) == RunFrom(old(View(s)), steps) && steps == StepsOf(waiting)
    {
      steps := [];
      for i := 0 to |waiting|
        invariant View(s) == RunFrom(old(View(s)), steps) && steps == StepsOf(waiting[..i])
      {
        assert waiting[..i + 1][..i] == waiting[..i];
        if waiting[i] == Failed {
          assert steps + [] == steps;
          continue;
        }
        ghost var step := if waiting[i].Taken? then Accept else AcceptUnheard;
        OneMoreStep(old(View(s)), steps, step);
        steps := steps + [step];
        TakeIn(waiting[i].Taken?, s);
      }
      assert waiting[..|waiting|] == waiting;
    }

    method TakeIn(heard: bool, ghost s: System)
      modifies this
      ensures View(s) == Next(old(View(s)), if heard then Accept else AcceptUnheard)
    {
      var token := pilgrimCounter;
      pilgrimCounter := pilgrimCounter + 1;
      reached := reached[token := 0];
      ingressMap := ingressMap[token := Pilgrim(0)];
      if heard {
        pilgrimTx := pilgrimTx + [Welcome(token)];
      } else {
        ingressMap := ingressMap - {token};
      }
    }

    /** A readable client's connection goes to the choir, if the loop has it. */
    method DispatchClient(token: Token, ghost s: System)
      modifies this
      ensures View(s) == Next(old(View(s)), Dispatch(token))
    {
      if token in ingressMap {
        var pilgrim := ingressMap[token];
        ingressMap := ingressMap - {token};
        choir := choir + [Song(token, pilgrim)];
      }
    }

    /** The steps that what a poll reported leads to. */
    static ghost function StepsOfEvents(events: seq<Event>): seq<Step> {
      if events == [] then []
      else StepsOfEvents(events[..|events| - 1]) +
           match events[|events| - 1] case Listener(waiting) => StepsOf(waiting) case Readable(t) => [Dispatch(t)]
    }

    /** One pass: first all returned connections, then the notices up to one that ends the process, and then,
        unless there was one, everything the poll reported. */
    method Pass(events: seq<Event>, ghost s: System) returns (exit: bool, ghost steps: seq<Step>)
      modifies this
      ensures View(s) == RunFrom(old(View(s)), steps)
      ensures exit <==> SERVER in old(egressRx)
      ensures steps == Times(|old(ingressRx)|, TakeReturned) + Times(BeforeInterrupt(old(egressRx)), TakeNotice) +
                       if exit then [] else StepsOfEvents(events)
    {
      ghost var before := View(s);
      ghost var first := TakeReturnedConnections(s);
      ghost var more;
      exit, more := TakeNotices(s);
      RunsJoin(before, first, more);
      steps := first + more;
      if exit {
        assert steps + [] == steps;
        return;
      }
      more := Heed(events, s);
      RunsJoin(before, steps, more);
      steps := steps + more;
    }

    method Heed(events: seq<Event>, ghost s: System) returns (ghost steps: seq<Step>)
      modifies this
      ensures View(s) == RunFrom(old(View(s)), steps) && steps == StepsOfEvents(events)
    {
      steps := [];
      for i := 0 to |events|
        invariant View(s) == RunFrom(old(View(s)), steps) && steps == StepsOfEvents(events[..i])
      {
        assert events[..i + 1][..i] == events[..i];
        match events[i] {
          case Listener(waiting) =>
            ghost var more := AcceptAll(waiting, s);
            RunsJoin(old(View(s)), steps, more);
            steps := steps + more;
          case Readable(token) =>
            DispatchClient(token, s);
            OneMoreStep(old(View(s)), steps, Dispatch(token));
            steps := steps + [Dispatch(token)];
        }
      }
      assert events[..|events|] == events;
    }
  }

  /** How many notices come before one that ends the process. */
  ghost function BeforeInterrupt(notices: seq<Token>): nat {
    if notices == [] || notices[0] == SERVER then 0 else 1 + BeforeInterrupt(notices[1..])
  }

  lemma {:induction false} FirstInterrupt(notices: seq<Token>, n: nat)
    requires n < |notices| && notices[n] == SERVER && forall i :: 0 <= i < n ==> notices[i] != SERVER
    ensures BeforeInterrupt(notices) == n
    decreases n
  {
    if n > 0 {
      FirstInterrupt(notices[1..], n - 1);
    }
  }

  lemma {:induction false} NoInterrupt(notices: seq<Token>)
    requires SERVER !in notices
    ensures BeforeInterrupt(notices) == |notices|
  {
    if notices != [] {
      NoInterrupt(notices[1..]);
    }
  }

  /** How many arrivals get a token. */
  function Tokens(waiting: seq<Arrival>): nat {
    if waiting == [] then 0
    else Tokens(waiting[..|waiting| - 1]) + if waiting[|waiting| - 1].Failed? then 0 else 1
  }

  function Arrive(s: System, arrival: Arrival): System {
    match arrival
    case Taken => Next(s, Accept)
    case Failed => s
    case Unheard => Next(s, AcceptUnheard)
  }

  /** The system after some arrivals. */
  function ArriveAll(s: System, waiting: seq<Arrival>): System {
    if waiting == [] then s else Arrive(ArriveAll(s, waiting[..|waiting| - 1]), waiting[|waiting| - 1])
  }

  lemma {:induction false} ArrivalsAreSteps(s: System, waiting: seq<Arrival>)
    ensures RunFrom(s, EventLoop.StepsOf(waiting)) == ArriveAll(s, waiting)
  {
    if waiting != [] {
      var n := |waiting| - 1;
      var steps := EventLoop.StepsOf(waiting[..n]);
      ArrivalsAreSteps(s, waiting[..n]);
      match waiting[n] {
        case Taken => OneMoreStep(s, steps, Accept);
        case Failed => assert steps + [] == steps;
        case Unheard => OneMoreStep(s, steps, AcceptUnheard);
      }
    }
  }

  /** What has become of the arrival that was given token t. */
  predicate Settled(s: System, arrival: Arrival, t: Token) {
    && t < s.counter
    && (arrival.Taken? ==> t in s.ingress && s.ingress[t] == Pilgrim(0) && Welcome(t) in s.outbox)
    && (arrival.Unheard? ==> t !in s.ingress)
  }

  lemma StaysSettled(s: System, next: Arrival, arrival: Arrival, t: Token)
    requires Settled(s, arrival, t)
    ensures Settled(Arrive(s, next), arrival, t)
  {
  }

  lemma NewcomerSettles(s: System, arrival: Arrival)
    requires !arrival.Failed?
    ensures Settled(Arrive(s, arrival), arrival, s.counter)
  {
  }

  lemma {:induction false} TokensAreGiven(s: System, waiting: seq<Arrival>)
    ensures ArriveAll(s, waiting).counter == s.counter + Tokens(waiting)
  {
    if waiting != [] {
      TokensAreGiven(s, waiting[..|waiting| - 1]);
    }
  }

  lemma {:induction false} ArrivalsSettle(s: System, waiting: seq<Arrival>, i: nat)
    requires i < |waiting| && !waiting[i].Failed?
    ensures Settled(ArriveAll(s, waiting), waiting[i], s.counter + Tokens(waiting[..i]))
  {
    var n := |waiting| - 1;
    if i == n {
      TokensAreGiven(s, waiting[..n]);
      NewcomerSettles(ArriveAll(s, waiting[..n]), waiting[n]);
    } else {
      assert waiting[..n][..i] == waiting[..i];
      ArrivalsSettle(s, waiting[..n], i);
      StaysSettled(ArriveAll(s, waiting[..n]), waiting[n], waiting[i], s.counter + Tokens(waiting[..i]));
    }
  }

  /** Every arrival that does not fail gets the next token. One that is taken in is welcomed and its connection
      waits in the loop; one that nobody can be told of is not. */
  lemma ArrivalsAreTakenIn(s: System, waiting: seq<Arrival>, i: nat)
    requires i < |waiting| && !waiting[i].Failed?
    ensures var s', t := RunFrom(s, EventLoop.StepsOf(waiting)), s.counter + Tokens(waiting[..i]);
            s'.counter == s.counter + Tokens(waiting) && Settled(s', waiting[i], t)
  {
    ArrivalsAreSteps(s, waiting);
    TokensAreGiven(s, waiting);
    ArrivalsSettle(s, waiting, i);
  }
}
